/** The Scribbly handlers of src/routers/scribbly.js: quiz creation with one
    blank work per group, individual and group submission, the reaction
    toggle, the need-to-do and finished lists, and the quiz patch. */
module ScribblyRouter {
  import opened Json
  import opened Store
  import opened ScribblyWorkModel
  import ScribblyModel
  import UserModel
  import Logic
  import Listing
  import ScribblyLogic
  import Populate

  // ---------------------------------------------------------------------
  // POST /api/scribbly/create
  // ---------------------------------------------------------------------

  /** `req.body.groupSize || classDoc.studentList.length` */
  function GroupSize(body: Doc, roster: seq<Json>): Json {
    if Truthy(Get(body, "groupSize")) then Get(body, "groupSize") else Num(|roster|)
  }

  /** The quiz after the works `ws` were attached one after the other. */
  function AttachAll(quiz: Doc, ws: seq<Oid>): Doc
    decreases |ws|
  {
    if ws == [] then quiz else Logic.AttachWork(AttachAll(quiz, ws[..|ws| - 1]), ws[|ws| - 1])
  }

  lemma AttachAllStep(quiz: Doc, ws: seq<Oid>, w: Oid)
    ensures AttachAll(quiz, ws + [w]) == Logic.AttachWork(AttachAll(quiz, ws), w)
  {
    assert (ws + [w])[..|ws|] == ws;
  }

  /** Attaching works one by one appends their references in order... */
  lemma {:induction false} AttachAllAppends(quiz: Doc, ws: seq<Oid>)
    ensures Items(Get(AttachAll(quiz, ws), "studentWorks")) == Items(Get(quiz, "studentWorks")) + Logic.Refs(ws)
    decreases |ws|
  {
    if ws != [] {
      var init, last := ws[..|ws| - 1], ws[|ws| - 1];
      var before := Items(Get(quiz, "studentWorks"));
      AttachAllAppends(quiz, init);
      assert Items(Get(AttachAll(quiz, ws), "studentWorks")) == (before + Logic.Refs(init)) + [Ref(last)];
      RefsSnoc(init, last);
      assert init + [last] == ws;
    }
  }

  /** The references of one more work end in that work's reference. */
  lemma RefsSnoc(ids: seq<Oid>, w: Oid)
    ensures Logic.Refs(ids + [w]) == Logic.Refs(ids) + [Ref(w)]
  {
    assert forall i :: 0 <= i < |ids| + 1 ==> Logic.Refs(ids + [w])[i] == (Logic.Refs(ids) + [Ref(w)])[i];
  }

  /** ...and touches nothing else of the quiz. */
  lemma {:induction false} AttachAllKeepsOthers(quiz: Doc, ws: seq<Oid>, k: string)
    requires k != "studentWorks"
    ensures Get(AttachAll(quiz, ws), k) == Get(quiz, k)
    decreases |ws|
  {
    if ws != [] {
      AttachAllKeepsOthers(quiz, ws[..|ws| - 1], k);
    }
  }

  /** The blank work created for one group. */
  function GroupWork(group: seq<Json>): Doc {
    NewWork(map["author" := Arr(group)])
  }

  /** The work collection after the works `ws` were created in order, the
      i-th holding `make(groups[i])`. */
  function AddWorks(works: map<Oid, Doc>, ws: seq<Oid>, groups: seq<seq<Json>>, make: seq<Json> -> Doc): map<Oid, Doc>
    requires |ws| <= |groups|
    decreases |ws|
  {
    if ws == [] then works
    else AddWorks(works, ws[..|ws| - 1], groups, make)[ws[|ws| - 1] := make(groups[|ws| - 1])]
  }

  /** The work collection after the works `ws` were created in order, the
      i-th for the i-th group. */
  function AddGroupWorks(works: map<Oid, Doc>, ws: seq<Oid>, groups: seq<seq<Json>>): map<Oid, Doc>
    requires |ws| <= |groups|
  {
    AddWorks(works, ws, groups, GroupWork)
  }

  /** Ids that are new to `works` and pairwise distinct. */
  predicate FreshIds(works: map<Oid, Doc>, ws: seq<Oid>) {
    (forall i :: 0 <= i < |ws| ==> ws[i] !in works)
    && (forall i, j :: 0 <= i < j < |ws| ==> ws[i] != ws[j])
  }

  lemma AddWorksStep(before: map<Oid, Doc>, ws: seq<Oid>, w: Oid, groups: seq<seq<Json>>, make: seq<Json> -> Doc)
    requires |ws| < |groups|
    ensures AddWorks(before, ws + [w], groups, make)
            == AddWorks(before, ws, groups, make)[w := make(groups[|ws|])]
  {
    assert (ws + [w])[..|ws|] == ws;
  }

  lemma FreshIdsStep(before: map<Oid, Doc>, ws: seq<Oid>, w: Oid)
    requires FreshIds(before, ws) && w !in before && w !in ws
    ensures FreshIds(before, ws + [w])
  {
  }

  /** `after` is `before` plus one new work per group, the i-th authored by
      exactly the i-th group, with every earlier work untouched. */
  ghost predicate GroupWorks(before: map<Oid, Doc>, after: map<Oid, Doc>, ws: seq<Oid>, groups: seq<seq<Json>>) {
    |ws| <= |groups|
    && FreshIds(before, ws)
    && (forall i :: 0 <= i < |ws| ==> ws[i] in after && after[ws[i]] == GroupWork(groups[i]))
    && (forall w :: w in after <==> w in before || w in ws)
    && (forall w :: w in before ==> after[w] == before[w])
  }

  lemma {:induction false} AddWorksKeys(before: map<Oid, Doc>, ws: seq<Oid>, groups: seq<seq<Json>>, make: seq<Json> -> Doc)
    requires |ws| <= |groups|
    ensures forall w :: w in AddWorks(before, ws, groups, make) <==> w in before || w in ws
    decreases |ws|
  {
    if ws != [] {
      var n := |ws| - 1;
      AddWorksKeys(before, ws[..n], groups, make);
      assert forall w :: w in ws <==> w in ws[..n] || w == ws[n];
    }
  }

  lemma {:induction false} AddWorksKeepsOld(before: map<Oid, Doc>, ws: seq<Oid>, groups: seq<seq<Json>>, make: seq<Json> -> Doc)
    requires |ws| <= |groups| && FreshIds(before, ws)
    ensures forall w :: w in before ==> w in AddWorks(before, ws, groups, make) && AddWorks(before, ws, groups, make)[w] == before[w]
    decreases |ws|
  {
    if ws != [] {
      AddWorksKeepsOld(before, ws[..|ws| - 1], groups, make);
    }
  }

  lemma FreshIdsPrefix(works: map<Oid, Doc>, ws: seq<Oid>, n: nat)
    requires FreshIds(works, ws) && n <= |ws|
    ensures FreshIds(works, ws[..n])
  {
    assert forall i :: 0 <= i < n ==> ws[..n][i] == ws[i];
  }

  lemma {:induction false} AddWorksAt(before: map<Oid, Doc>, ws: seq<Oid>, groups: seq<seq<Json>>, make: seq<Json> -> Doc, i: nat)
    requires |ws| <= |groups| && FreshIds(before, ws) && i < |ws|
    ensures ws[i] in AddWorks(before, ws, groups, make) && AddWorks(before, ws, groups, make)[ws[i]] == make(groups[i])
    decreases |ws|
  {
    var n := |ws| - 1;
    if i < n {
      FreshIdsPrefix(before, ws, n);
      assert ws[..n][i] == ws[i] && ws[i] != ws[n];
      AddWorksAt(before, ws[..n], groups, make, i);
    }
  }

  /** Creating fresh works one per group yields exactly one new work per group
      and leaves the earlier works alone. */
  lemma AddGroupWorksSpec(before: map<Oid, Doc>, ws: seq<Oid>, groups: seq<seq<Json>>)
    requires |ws| <= |groups| && FreshIds(before, ws)
    ensures GroupWorks(before, AddGroupWorks(before, ws, groups), ws, groups)
  {
    AddWorksKeys(before, ws, groups, GroupWork);
    AddWorksKeepsOld(before, ws, groups, GroupWork);
    forall i | 0 <= i < |ws|
      ensures ws[i] in AddGroupWorks(before, ws, groups) && AddGroupWorks(before, ws, groups)[ws[i]] == GroupWork(groups[i])
    {
      AddWorksAt(before, ws, groups, GroupWork, i);
    }
  }

  /** What creation returns: the new quiz, for a group quiz the class whose
      roster was split, and the new works. */
  datatype Created = Created(quiz: Oid, cls: Option<Oid>, works: seq<Oid>)

  /** `createDocument(ScribblyStudentWork, data)`. */
  method CreateWork(works: map<Oid, Doc>, data: Doc) returns (w: Oid, next: map<Oid, Doc>)
    ensures w !in works && next == works[w := NewWork(data)]
  {
    w, next := Logic.CreateDocument(works, WorkDefaults, data, WorkPaths);
  }

  /** `createDocument(ScribblyStudentWork, { author: group })`. */
  method CreateGroupWork(works: map<Oid, Doc>, group: seq<Json>) returns (w: Oid, next: map<Oid, Doc>)
    ensures w !in works && next == works[w := GroupWork(group)]
  {
    w, next := Logic.CreateDocument(works, WorkDefaults, map["author" := Arr(group)], WorkPaths);
  }

  /** The loop that creates one blank work per group, authored by exactly
      that group, and attaches each to the quiz as it is created. */
  method CreateGroupWorks(works0: map<Oid, Doc>, quiz0: Doc, groups: seq<seq<Json>>)
    returns (ws: seq<Oid>, works: map<Oid, Doc>, quiz: Doc)
    ensures |ws| == |groups| && FreshIds(works0, ws)
    ensures works == AddGroupWorks(works0, ws, groups)
    ensures quiz == AttachAll(quiz0, ws)
  {
    ws, works, quiz := [], works0, quiz0;
    var i := 0;
    while i < |groups|
      invariant i == |ws| <= |groups|
      invariant FreshIds(works0, ws)
      invariant works == AddGroupWorks(works0, ws, groups)
      invariant quiz == AttachAll(quiz0, ws)
    {
      var w, next := CreateGroupWork(works, groups[i]);
      AddWorksKeys(works0, ws, groups, GroupWork);
      AddWorksStep(works0, ws, w, groups, GroupWork);
      FreshIdsStep(works0, ws, w);
      AttachAllStep(quiz0, ws, w);
      works, quiz, ws := next, Logic.AttachWork(quiz, w), ws + [w];
      i := i + 1;
    }
  }

  /** `POST /api/scribbly/create`.  The quiz is created first (`quiz` names
      it), and a body without the required `quizId` or `quizName`, or with a
      `quizId` the unique index already holds, fails its save with nothing
      stored; a group quiz then needs the class named by `body.class` (404
      without it, the quiz staying created), whose roster `randomGroups`
      splits into groups, one blank work per group. */
  method Create(db: Db, u: Oid, body: Doc, randomGroups: (seq<Json>, Json) -> seq<seq<Json>>)
    returns (r: Reply<Created>, quiz: Option<Oid>)
    requires u in db.users
    modifies db`scribblies, db`scribblyWorks
    ensures r.Ok? || r.NotFound? || r.Rejected? || r.Fails?
    ensures r.Rejected? <==> !UserModel.IsAdmin(db.users[u])
    ensures r.Rejected? ==> quiz.None? && unchanged(db)
    ensures r.Fails? <==> UserModel.IsAdmin(db.users[u])
                          && (!ScribblyModel.Valid(ScribblyModel.NewScribbly(body))
                              || HasMatch(old(db.scribblies), "quizId", Get(ScribblyModel.NewScribbly(body), "quizId")))
    ensures r.Fails? ==> quiz.None? && unchanged(db)
    ensures r.NotFound? <==> UserModel.IsAdmin(db.users[u]) && ScribblyModel.Valid(ScribblyModel.NewScribbly(body))
                             && !HasMatch(old(db.scribblies), "quizId", Get(ScribblyModel.NewScribbly(body), "quizId"))
                             && Get(body, "scribblyType") == Str("group")
                             && !HasMatch(db.classes, "classId", Get(body, "class"))
    ensures r.NotFound? ==> quiz.Some? && quiz.value !in old(db.scribblies)
                            && db.scribblies == old(db.scribblies)[quiz.value := ScribblyModel.NewScribbly(body)]
                            && db.scribblyWorks == old(db.scribblyWorks)
    ensures r.Ok? ==> quiz == Some(r.value.quiz) && r.value.quiz !in old(db.scribblies)
    ensures r.Ok? ==> db.scribblies == old(db.scribblies)[r.value.quiz := AttachAll(ScribblyModel.NewScribbly(body), r.value.works)]
    ensures r.Ok? && Get(body, "scribblyType") != Str("group") ==>
              r.value.cls.None? && r.value.works == [] && db.scribblyWorks == old(db.scribblyWorks)
    ensures r.Ok? && Get(body, "scribblyType") == Str("group") ==>
              r.value.cls.Some? && r.value.cls.value in db.classes
              && Get(db.classes[r.value.cls.value], "classId") == Get(body, "class")
    ensures r.Ok? && Get(body, "scribblyType") == Str("group") && r.value.cls.Some? && r.value.cls.value in db.classes ==>
              var roster := Items(Get(db.classes[r.value.cls.value], "studentList"));
              var groups := randomGroups(roster, GroupSize(body, roster));
              |r.value.works| == |groups| && FreshIds(old(db.scribblyWorks), r.value.works)
              && db.scribblyWorks == AddGroupWorks(old(db.scribblyWorks), r.value.works, groups)
  {
    if !UserModel.IsAdmin(db.users[u]) {
      return Rejected, None;
    }
    if !ScribblyModel.Valid(ScribblyModel.NewScribbly(body))
       || HasMatch(db.scribblies, "quizId", Get(ScribblyModel.NewScribbly(body), "quizId")) {
      return Fails, None;
    }
    r, quiz := CreateQuiz(db, body, randomGroups);
  }

  /** `createQuiz(ScribblyQuiz, body)`, taken as `createDocument`, once the
      unique index has admitted the new `quizId`. */
  method CreateScribbly(quizzes: map<Oid, Doc>, body: Doc) returns (q: Oid, next: map<Oid, Doc>)
    requires !HasMatch(quizzes, "quizId", Get(ScribblyModel.NewScribbly(body), "quizId"))
    ensures q !in quizzes && next == quizzes[q := ScribblyModel.NewScribbly(body)]
    ensures UniqueOn(quizzes, "quizId") ==> UniqueOn(next, "quizId")
  {
    q, next := Logic.CreateDocument(quizzes, ScribblyModel.ScribblyDefaults, body, ScribblyModel.Paths);
    if UniqueOn(quizzes, "quizId") {
      InsertKeepsUnique(quizzes, "quizId", q, ScribblyModel.NewScribbly(body));
    }
  }

  /** The part of `Create` after the quiz passed its validation and the
      unique index on `quizId`: the quiz is stored, and a group quiz goes on
      to its class. */
  method CreateQuiz(db: Db, body: Doc, randomGroups: (seq<Json>, Json) -> seq<seq<Json>>)
    returns (r: Reply<Created>, quiz: Option<Oid>)
    requires !HasMatch(db.scribblies, "quizId", Get(ScribblyModel.NewScribbly(body), "quizId"))
    modifies db`scribblies, db`scribblyWorks
    ensures r.Ok? || r.NotFound?
    ensures r.NotFound? <==> Get(body, "scribblyType") == Str("group") && !HasMatch(db.classes, "classId", Get(body, "class"))
    ensures r.NotFound? ==> quiz.Some? && quiz.value !in old(db.scribblies)
                            && db.scribblies == old(db.scribblies)[quiz.value := ScribblyModel.NewScribbly(body)]
                            && db.scribblyWorks == old(db.scribblyWorks)
    ensures r.Ok? ==> quiz == Some(r.value.quiz) && r.value.quiz !in old(db.scribblies)
    ensures r.Ok? ==> db.scribblies == old(db.scribblies)[r.value.quiz := AttachAll(ScribblyModel.NewScribbly(body), r.value.works)]
    ensures r.Ok? && Get(body, "scribblyType") != Str("group") ==>
              r.value.cls.None? && r.value.works == [] && db.scribblyWorks == old(db.scribblyWorks)
    ensures r.Ok? && Get(body, "scribblyType") == Str("group") ==>
              r.value.cls.Some? && r.value.cls.value in db.classes
              && Get(db.classes[r.value.cls.value], "classId") == Get(body, "class")
    ensures r.Ok? && Get(body, "scribblyType") == Str("group") && r.value.cls.Some? && r.value.cls.value in db.classes ==>
              var roster := Items(Get(db.classes[r.value.cls.value], "studentList"));
              var groups := randomGroups(roster, GroupSize(body, roster));
              |r.value.works| == |groups| && FreshIds(old(db.scribblyWorks), r.value.works)
              && db.scribblyWorks == AddGroupWorks(old(db.scribblyWorks), r.value.works, groups)
  {
    var q, quizzes := CreateScribbly(db.scribblies, body);
    var created := ScribblyModel.NewScribbly(body);
    quiz := Some(q);
    if Get(body, "scribblyType") != Str("group") {
      assert AttachAll(created, []) == created;
      db.scribblies := quizzes;
      return Ok(Created(q, None, [])), quiz;
    }
    r := CreateForClass(db, body, q, created, randomGroups);
  }

  /** The group branch of `Create`: the class named in the body is looked up
      and its roster split into groups, one new work per group; when the
      class does not exist the quiz is still stored, without works. */
  method CreateForClass(db: Db, body: Doc, q: Oid, created: Doc,
                        randomGroups: (seq<Json>, Json) -> seq<seq<Json>>) returns (r: Reply<Created>)
    requires q !in db.scribblies
    modifies db`scribblies, db`scribblyWorks
    ensures r.Ok? || r.NotFound?
    ensures r.NotFound? <==> !HasMatch(db.classes, "classId", Get(body, "class"))
    ensures r.NotFound? ==> db.scribblies == old(db.scribblies)[q := created]
                            && db.scribblyWorks == old(db.scribblyWorks)
    ensures r.Ok? ==> r.value.quiz == q
                      && db.scribblies == old(db.scribblies)[q := AttachAll(created, r.value.works)]
    ensures r.Ok? ==> r.value.cls.Some? && r.value.cls.value in db.classes
                      && Get(db.classes[r.value.cls.value], "classId") == Get(body, "class")
    ensures r.Ok? && r.value.cls.Some? && r.value.cls.value in db.classes ==>
              var roster := Items(Get(db.classes[r.value.cls.value], "studentList"));
              var groups := randomGroups(roster, GroupSize(body, roster));
              |r.value.works| == |groups| && FreshIds(old(db.scribblyWorks), r.value.works)
              && db.scribblyWorks == AddGroupWorks(old(db.scribblyWorks), r.value.works, groups)
  {
    var c := FindOne(db.classes, "classId", Get(body, "class"));
    if c.None? {
      db.scribblies := db.scribblies[q := created];
      return NotFound;
    }
    var roster := Items(Get(db.classes[c.value], "studentList"));
    var groups := randomGroups(roster, GroupSize(body, roster));
    var ws, works, attached := CreateGroupWorks(db.scribblyWorks, created, groups);
    assert works == AddGroupWorks(old(db.scribblyWorks), ws, groups);
    db.scribblies := db.scribblies[q := attached];
    db.scribblyWorks := works;
    r := Ok(Created(q, c, ws));
  }

  /** A freshly created group work with a non-empty group is not complete, so
      nobody in the group sees the quiz as finished before the group has
      submitted. */
  lemma CreatedGroupWorkIncomplete(before: map<Oid, Doc>, ws: seq<Oid>, groups: seq<seq<Json>>, i: nat)
    requires |ws| == |groups| && FreshIds(before, ws)
    requires i < |ws| && groups[i] != []
    ensures ws[i] in AddGroupWorks(before, ws, groups)
    ensures !GroupComplete(Obj(AddGroupWorks(before, ws, groups)[ws[i]]))
  {
    AddGroupWorksSpec(before, ws, groups);
    NewGroupWorkIncomplete(groups[i]);
  }

  // ---------------------------------------------------------------------
  // POST /api/scribbly/submit/:quizId
  // ---------------------------------------------------------------------

  /** The submitted fields: the body, with the uploaded drawing (already
      transcoded) as `studentWork` when there is one. */
  function SubmitData(body: Doc, file: Option<seq<Byte>>): Doc {
    if file.Some? then body["studentWork" := Bin(file.value)] else body
  }

  /** The user's group work among a quiz's work references: the first
      reference to a stored work whose authors include the user.  Populating
      drops references to missing works, so this is the work that
      `findGroupStudentWorkByUserId` picks out of the populated list (see the
      lemma below). */
  function GroupWorkOf(refs: seq<Json>, works: map<Oid, Doc>, u: Oid): (r: Option<Oid>)
    ensures r.Some? ==> r.value in works && Ref(r.value) in refs && ScribblyLogic.HasAuthorId(Obj(works[r.value]), u)
    ensures r.None? <==> forall w :: w in works && Ref(w) in refs ==> !ScribblyLogic.HasAuthorId(Obj(works[w]), u)
  {
    if refs == [] then None
    else if refs[0].Ref? && refs[0].id in works && ScribblyLogic.HasAuthorId(Obj(works[refs[0].id]), u) then
      Some(refs[0].id)
    else
      assert forall y :: y in refs ==> y == refs[0] || y in refs[1..];
      GroupWorkOf(refs[1..], works, u)
  }

  /** The finder on a list with one more work in front. */
  lemma FindGroupWorkCons(x: Json, rest: seq<Json>, u: Oid)
    ensures ScribblyLogic.HasAuthorId(x, u) ==> ScribblyLogic.FindGroupWorkByUserId([x] + rest, u) == Some(0)
    ensures !ScribblyLogic.HasAuthorId(x, u) ==>
              ScribblyLogic.FindGroupWorkByUserId([x] + rest, u)
              == match ScribblyLogic.FindGroupWorkByUserId(rest, u)
                 case None => None
                 case Some(i) => Some(i + 1)
  {
    FirstIndexCons(x, rest, (work: Json) => ScribblyLogic.HasAuthorId(work, u));
  }

  /** Finding the user's work in the populated list and looking the work up
      among the references agree on whether there is one ... */
  lemma {:induction false} PopulatedFindIffGroupWorkOf(refs: seq<Json>, works: map<Oid, Doc>, u: Oid)
    ensures ScribblyLogic.FindGroupWorkByUserId(Populate.PopulateRefs(refs, works), u).None?
            <==> GroupWorkOf(refs, works, u).None?
    decreases |refs|
  {
    if refs != [] {
      PopulatedFindIffGroupWorkOf(refs[1..], works, u);
      var rest := Populate.PopulateRefs(refs[1..], works);
      if refs[0].Ref? && refs[0].id in works {
        var x := Populate.Resolved(works, refs[0].id);
        assert Authors(x) == Authors(Obj(works[refs[0].id]));
        assert Populate.PopulateRefs(refs, works) == [x] + rest;
        FindGroupWorkCons(x, rest, u);
      } else {
        assert Populate.PopulateRefs(refs, works) == rest;
      }
    }
  }

  /** ... and the populated entry found is the referenced work. */
  lemma {:induction false} PopulatedFindIsGroupWorkOf(refs: seq<Json>, works: map<Oid, Doc>, u: Oid)
    ensures var populated := Populate.PopulateRefs(refs, works);
            var i := ScribblyLogic.FindGroupWorkByUserId(populated, u);
            var w := GroupWorkOf(refs, works, u);
            i.Some? ==> w.Some? && populated[i.value] == Populate.Resolved(works, w.value)
    decreases |refs|
  {
    if refs != [] {
      PopulatedFindIsGroupWorkOf(refs[1..], works, u);
      var rest := Populate.PopulateRefs(refs[1..], works);
      if refs[0].Ref? && refs[0].id in works {
        var x := Populate.Resolved(works, refs[0].id);
        assert Authors(x) == Authors(Obj(works[refs[0].id]));
        assert Populate.PopulateRefs(refs, works) == [x] + rest;
        FindGroupWorkCons(x, rest, u);
        if !ScribblyLogic.HasAuthorId(x, u) {
          assert GroupWorkOf(refs, works, u) == GroupWorkOf(refs[1..], works, u);
          var f := ScribblyLogic.FindGroupWorkByUserId(rest, u);
          if f.Some? {
            assert ([x] + rest)[f.value + 1] == rest[f.value];
          }
        }
      } else {
        assert Populate.PopulateRefs(refs, works) == rest;
        assert GroupWorkOf(refs, works, u) == GroupWorkOf(refs[1..], works, u);
      }
    }
  }

  /** A group work after a submission: the submitted fields the work schema
      declares over the old ones, and `curTaskDesc` one past its old value; no
      work when the old progress is not a number. */
  function Progressed(work: Doc, data: Doc): (r: Option<Doc>)
    ensures r.Some? <==> Get(work, "curTaskDesc").Num?
    ensures r.Some? ==> Get(r.value, "curTaskDesc") == Num(Get(work, "curTaskDesc").n + 1)
    ensures r.Some? ==> forall k :: k != "curTaskDesc" && k in data && k in WorkPaths ==> Get(r.value, k) == data[k]
    ensures r.Some? ==> forall k :: k != "curTaskDesc" && (k !in data || k !in WorkPaths) ==> Get(r.value, k) == Get(work, k)
  {
    var progress := Get(work, "curTaskDesc");
    if progress.Num? then Some(work + Populate.Project(data, WorkPaths)["curTaskDesc" := Num(progress.n + 1)]) else None
  }

  /** The work schema requires nothing, so its `save` accepts every work. */
  predicate WorkValid(work: Doc) {
    true
  }

  /** `updateDocument(workDoc, {...req.body, curTaskDesc: workDoc.curTaskDesc + 1})` */
  method Advance(work: Doc, data: Doc) returns (r: Option<Doc>)
    ensures r == Progressed(work, data)
  {
    var progress := Get(work, "curTaskDesc");
    if !progress.Num? {
      return None;
    }
    var patch := data["curTaskDesc" := Num(progress.n + 1)];
    var updated := Logic.UpdateDocument(work, patch, WorkPaths, WorkValid);
    Populate.ProjectUpdate(data, "curTaskDesc", Num(progress.n + 1), WorkPaths);
    r := updated;
  }

  /** What a successful submission touched. */
  datatype Submitted = Submitted(quiz: Oid, work: Oid)

  /** The individual branch's effect on the store: `w` is a fresh work
      authored by the user alone and attached to the quiz `q`. */
  ghost predicate IndividualStored(quizzes0: map<Oid, Doc>, works0: map<Oid, Doc>, quizzes: map<Oid, Doc>,
                                   works: map<Oid, Doc>, q: Oid, u: Oid, data: Doc, w: Oid)
    requires q in quizzes0
  {
    w !in works0
    && works == works0[w := NewWork(data["author" := Arr([Ref(u)])])]
    && quizzes == quizzes0[q := Logic.AttachWork(quizzes0[q], w)]
  }

  /** The group branch's effect on the works: `stored` is the user's group
      work among `refs` exactly when there is one whose progress is a number,
      and then only that work advances as `Progressed` says; otherwise no work
      changes. */
  ghost predicate GroupAdvanced(refs: seq<Json>, works0: map<Oid, Doc>, works: map<Oid, Doc>, u: Oid, data: Doc,
                                stored: Option<Oid>)
  {
    var mine := GroupWorkOf(refs, works0, u);
    (stored.Some? <==> mine.Some? && Progressed(works0[mine.value], data).Some?)
    && (stored.Some? ==> stored == mine && works == works0[stored.value := Progressed(works0[stored.value], data).value])
    && (stored.None? ==> works == works0)
  }

  /** The individual branch: a new work authored by the user alone, attached
      to the quiz, then the completion marker.  The work stays stored when
      the marker fails. */
  method SubmitIndividual(db: Db, q: Oid, u: Oid, data: Doc) returns (r: Reply<Oid>, stored: Option<Oid>)
    requires u in db.users && q in db.scribblies
    modifies db`scribblies, db`scribblyWorks, db`users
    ensures r.Ok? || r.Fails?
    ensures stored.Some?
            && IndividualStored(old(db.scribblies), old(db.scribblyWorks), db.scribblies, db.scribblyWorks, q, u, data, stored.value)
    ensures r.Ok? <==> stored.Some? && UserModel.TakenQuizTypeValid(Get(old(db.scribblies)[q], "quizType"))
    ensures r.Ok? ==> r.value == stored.value
    ensures r.Fails? ==> db.users == old(db.users)
    ensures r.Ok? ==> db.users == old(db.users)[u := Logic.RecordTaken(old(db.users)[u], q, Get(old(db.scribblies)[q], "quizType"))]
  {
    var quiz := db.scribblies[q];
    var w := StoreIndividualWork(db, q, u, data);
    stored := Some(w);
    var marked := Logic.InjectQuizToUser(db, q, quiz, u);
    r := if marked.Ok? then Ok(w) else Fails;
  }

  /** `createDocument(ScribblyStudentWork, {...req.body, author: [req.user]})`
      followed by `injectStudentworkToQuiz`. */
  method StoreIndividualWork(db: Db, q: Oid, u: Oid, data: Doc) returns (w: Oid)
    requires q in db.scribblies
    modifies db`scribblies, db`scribblyWorks
    ensures w !in old(db.scribblyWorks)
    ensures db.scribblyWorks == old(db.scribblyWorks)[w := NewWork(data["author" := Arr([Ref(u)])])]
    ensures db.scribblies == old(db.scribblies)[q := Logic.AttachWork(old(db.scribblies)[q], w)]
  {
    var works;
    w, works := CreateWork(db.scribblyWorks, data["author" := Arr([Ref(u)])]);
    db.scribblyWorks := works;
    db.scribblies := db.scribblies[q := Logic.AttachWork(db.scribblies[q], w)];
  }

  /** The group branch: the user's group work takes the submission
      (`stored`), then the completion marker; without a group work, or with a
      progress that is not a number, it fails before the marker.  The
      advanced work stays stored when the marker fails. */
  method SubmitGroup(db: Db, q: Oid, quiz: Doc, u: Oid, data: Doc) returns (r: Reply<Oid>, stored: Option<Oid>)
    requires u in db.users
    modifies db`scribblyWorks, db`users
    ensures r.Ok? || r.Fails?
    ensures GroupAdvanced(Items(Get(quiz, "studentWorks")), old(db.scribblyWorks), db.scribblyWorks, u, data, stored)
    ensures r.Ok? <==> stored.Some? && UserModel.TakenQuizTypeValid(Get(quiz, "quizType"))
    ensures r.Ok? ==> r.value == stored.value
    ensures r.Fails? ==> db.users == old(db.users)
    ensures r.Ok? ==> db.users == old(db.users)[u := Logic.RecordTaken(old(db.users)[u], q, Get(quiz, "quizType"))]
  {
    stored := None;
    var mine := GroupWorkOf(Items(Get(quiz, "studentWorks")), db.scribblyWorks, u);
    if mine.None? {
      return Fails, stored;
    }
    var updated := Advance(db.scribblyWorks[mine.value], data);
    if updated.None? {
      return Fails, stored;
    }
    stored := mine;
    db.scribblyWorks := db.scribblyWorks[mine.value := updated.value];
    var marked := Logic.InjectQuizToUser(db, q, quiz, u);
    r := if marked.Ok? then Ok(mine.value) else Fails;
  }

  /** The submit once the quiz `q` is found: the individual or the group
      branch by the quiz's `scribblyType`, then the completion marker.  The
      work `stored` stays even when the marker fails. */
  method SubmitTo(db: Db, u: Oid, q: Oid, quiz: Doc, data: Doc) returns (r: Reply<Oid>, stored: Option<Oid>)
    requires u in db.users && q in db.scribblies && db.scribblies[q] == quiz
    modifies db`scribblies, db`scribblyWorks, db`users
    ensures r.Ok? || r.Fails?
    ensures Get(quiz, "scribblyType") == Str("individual") ==>
              stored.Some?
              && IndividualStored(old(db.scribblies), old(db.scribblyWorks), db.scribblies, db.scribblyWorks, q, u, data, stored.value)
    ensures Get(quiz, "scribblyType") != Str("individual") ==>
              GroupAdvanced(Items(Get(quiz, "studentWorks")), old(db.scribblyWorks), db.scribblyWorks, u, data, stored)
              && unchanged(db`scribblies)
    ensures r.Ok? <==> stored.Some? && UserModel.TakenQuizTypeValid(Get(quiz, "quizType"))
    ensures r.Ok? ==> r.value == stored.value
    ensures r.Fails? ==> db.users == old(db.users)
    ensures r.Ok? ==> db.users == old(db.users)[u := Logic.RecordTaken(old(db.users)[u], q, Get(quiz, "quizType"))]
  {
    if Get(quiz, "scribblyType") == Str("individual") {
      r, stored := SubmitIndividual(db, q, u, data);
    } else {
      r, stored := SubmitGroup(db, q, quiz, u, data);
    }
  }

  /** `POST /api/scribbly/submit/:quizId`.  The quiz `found` is looked up
      (404 without one).  An individual quiz gets a new work authored by the
      user alone, with no attempt limit; a group quiz has the user's group
      work updated with the body and its `curTaskDesc` raised by exactly one,
      with no upper bound.  Either way the quiz is then recorded as taken by
      the user, and the work `stored` stays even when that fails. */
  method Submit(db: Db, u: Oid, quizId: Json, body: Doc, file: Option<seq<Byte>>)
    returns (r: Reply<Submitted>, found: Option<Oid>, stored: Option<Oid>)
    requires u in db.users
    modifies db`scribblies, db`scribblyWorks, db`users
    ensures !r.Rejected?
    ensures found.None? <==> !HasMatch(old(db.scribblies), "quizId", quizId)
    ensures found.Some? ==> found.value in old(db.scribblies) && Get(old(db.scribblies)[found.value], "quizId") == quizId
    ensures r.NotFound? <==> found.None?
    ensures found.None? ==> unchanged(db) && stored.None?
    ensures found.Some? && Get(old(db.scribblies)[found.value], "scribblyType") == Str("individual") ==>
              stored.Some?
              && IndividualStored(old(db.scribblies), old(db.scribblyWorks), db.scribblies, db.scribblyWorks,
                                  found.value, u, SubmitData(body, file), stored.value)
    ensures found.Some? && Get(old(db.scribblies)[found.value], "scribblyType") != Str("individual") ==>
              GroupAdvanced(Items(Get(old(db.scribblies)[found.value], "studentWorks")), old(db.scribblyWorks),
                            db.scribblyWorks, u, SubmitData(body, file), stored)
              && unchanged(db`scribblies)
    ensures r.Ok? <==> found.Some? && stored.Some?
                       && UserModel.TakenQuizTypeValid(Get(old(db.scribblies)[found.value], "quizType"))
    ensures r.Ok? ==> r.value == Submitted(found.value, stored.value)
    ensures !r.Ok? ==> db.users == old(db.users)
    ensures r.Ok? ==> db.users == old(db.users)[u := Logic.RecordTaken(old(db.users)[u], r.value.quiz,
                                                     Get(old(db.scribblies)[r.value.quiz], "quizType"))]
  {
    stored := None;
    found := FindOne(db.scribblies, "quizId", quizId);
    if found.None? {
      return NotFound, found, stored;
    }
    var done;
    done, stored := SubmitTo(db, u, found.value, db.scribblies[found.value], SubmitData(body, file));
    r := if done.Ok? then Ok(Submitted(found.value, done.value)) else Fails;
  }

  // ---------------------------------------------------------------------
  // POST /api/scribbly/react/:reactType/:workId
  // ---------------------------------------------------------------------

  /** The toggle of one reaction list: the user's every occurrence removed
      when present, the user appended when absent. */
  function Toggle(list: seq<Json>, u: Oid): (r: seq<Json>)
    ensures Ref(u) in list ==> r == Without(list, Ref(u))
    ensures Ref(u) !in list ==> r == list + [Ref(u)]
  {
    if Ref(u) in list then Without(list, Ref(u)) else list + [Ref(u)]
  }

  /** Toggling flips whether the user has reacted and keeps everybody else's
      reaction. */
  lemma ToggleFlips(list: seq<Json>, u: Oid)
    ensures ScribblyLogic.Reacted(Toggle(list, u), u) <==> !ScribblyLogic.Reacted(list, u)
    ensures forall x :: x != Ref(u) ==> (x in Toggle(list, u) <==> x in list)
  {
  }

  /** Toggling twice restores who has reacted; from a list without the user
      it restores the very list. */
  lemma ToggleTwice(list: seq<Json>, u: Oid)
    ensures forall x :: x in Toggle(Toggle(list, u), u) <==> x in list
    ensures Ref(u) !in list ==> Toggle(Toggle(list, u), u) == list
  {
    if Ref(u) !in list {
      assert Ref(u) in list + [Ref(u)];
      WithoutAbsent(list, Ref(u));
      WithoutAppend(list, Ref(u));
    }
  }

  /** `POST /api/scribbly/react/:reactType/:workId`.  A missing work fails
      (the handler calls `req.status`, which throws into the 400 branch); so
      does a `reactType` that does not name an array field of the work. */
  method React(db: Db, u: Oid, reactType: string, w: Oid) returns (r: Reply<()>)
    modifies db`scribblyWorks
    ensures r.Ok? || r.Fails?
    ensures r.Ok? <==> w in old(db.scribblyWorks) && Get(old(db.scribblyWorks)[w], reactType).Arr?
    ensures r.Fails? ==> db.scribblyWorks == old(db.scribblyWorks)
    ensures r.Ok? ==>
              db.scribblyWorks == old(db.scribblyWorks)[w := old(db.scribblyWorks)[w]
                [reactType := Arr(Toggle(Items(Get(old(db.scribblyWorks)[w], reactType)), u))]]
  {
    if w !in db.scribblyWorks {
      return Fails;
    }
    var work := db.scribblyWorks[w];
    var list := Get(work, reactType);
    if !list.Arr? {
      return Fails;
    }
    var toggled := if Ref(u) in list.items then Without(list.items, Ref(u)) else list.items + [Ref(u)];
    db.scribblyWorks := db.scribblyWorks[w := work[reactType := Arr(toggled)]];
    r := Ok(());
  }

  // ---------------------------------------------------------------------
  // GET /api/scribbly/need-to-do and /api/scribbly/finished
  // ---------------------------------------------------------------------

  const ScribblyTag: Json := Str("Scribbly")

  /** A quiz with its works populated. */
  function WithWorks(quiz: Doc, works: map<Oid, Doc>): Doc {
    quiz["studentWorks" := Arr(Populate.PopulateRefs(Items(Get(quiz, "studentWorks")), works))]
  }

  /** The user's Scribbly quizzes not yet taken, works populated: what the
      need-to-do handler hands to the builder. */
  function NeedToDoQuizzes(user: Doc, works: map<Oid, Doc>, perClass: seq<seq<Listing.Listed>>): (r: seq<Doc>)
    ensures var pending := Listing.NotTaken(Listing.Candidates(perClass, ScribblyTag), Listing.TakenIds(user));
            |r| == |pending| && forall i :: 0 <= i < |r| ==> r[i] == WithWorks(pending[i].quiz, works)
  {
    var pending := Listing.Quizzes(Listing.NotTaken(Listing.Candidates(perClass, ScribblyTag), Listing.TakenIds(user)));
    seq(|pending|, i requires 0 <= i < |pending| => WithWorks(pending[i], works))
  }

  /** `GET /api/scribbly/need-to-do`: the need-to-do builder applied to the
      user's untaken Scribbly quizzes. */
  method NeedToDo(db: Db, u: Oid, domain: string, perClass: seq<seq<Listing.Listed>>) returns (r: Reply<seq<Doc>>)
    requires u in db.users
    ensures var input := NeedToDoQuizzes(db.users[u], db.scribblyWorks, perClass);
            (r.Ok? || r.Fails?)
            && (r.Ok? <==> forall i :: 0 <= i < |input| ==> ScribblyLogic.NeedToDoEntry(domain, input[i], u).Some?)
            && (r.Ok? ==> |r.value| == |input|)
            && (r.Ok? ==> forall i :: 0 <= i < |input| ==>
                  r.value[i] == ScribblyLogic.NeedToDoEntry(domain, input[i], u).value)
  {
    var input := NeedToDoQuizzes(db.users[u], db.scribblyWorks, perClass);
    r := ScribblyLogic.BuildNeedToDo(domain, input, u);
    var entry := (quiz: Doc) => ScribblyLogic.NeedToDoEntry(domain, quiz, u);
    CollectSeqSucceeds(entry, input);
    if r.Ok? {
      CollectSeqValues(entry, input);
    }
  }

  /** The fields of an author that the finished handler selects. */
  const AuthorFields: set<string> := {"account", "firstName", "lastName"}

  /** A work with its authors populated (account and names only). */
  function WithAuthors(work: Json, users: map<Oid, Doc>): Json {
    if work.Obj? then
      Obj(work.fields["author" := Arr(Populate.PopulateRefs(Authors(work), Populate.ProjectAll(users, AuthorFields)))])
    else work
  }

  /** A quiz with its works populated and their authors populated in turn. */
  function WithWorksAndAuthors(quiz: Doc, works: map<Oid, Doc>, users: map<Oid, Doc>): Doc {
    var ws := Populate.PopulateRefs(Items(Get(quiz, "studentWorks")), works);
    quiz["studentWorks" := Arr(seq(|ws|, i requires 0 <= i < |ws| => WithAuthors(ws[i], users)))]
  }

  /** The finished gate: a group quiz stays only when the viewer's group work
      (found by account) exists and is complete; other quizzes always stay. */
  predicate KeepFinished(quiz: Doc, account: Json) {
    Get(quiz, "scribblyType") == Str("group") ==>
      var works := Items(Get(quiz, "studentWorks"));
      var mine := ScribblyLogic.FindGroupWorkByUserAccount(works, account);
      mine.Some? && GroupComplete(works[mine.value])
  }

  /** `finished.filter(...)` with the gate above. */
  function FinishedFilter(quizzes: seq<Doc>, account: Json): (r: seq<Doc>)
    ensures forall q :: q in r <==> q in quizzes && KeepFinished(q, account)
  {
    if quizzes == [] then []
    else if KeepFinished(quizzes[0], account) then [quizzes[0]] + FinishedFilter(quizzes[1..], account)
    else FinishedFilter(quizzes[1..], account)
  }

  /** The user's taken Scribbly quizzes, populated, before the gate. */
  function TakenQuizzes(user: Doc, works: map<Oid, Doc>, users: map<Oid, Doc>,
                        perClass: seq<seq<Listing.Listed>>): (r: seq<Doc>)
    ensures var taken := Listing.TakenOnly(Listing.Candidates(perClass, ScribblyTag), Listing.TakenIds(user));
            |r| == |taken| && forall i :: 0 <= i < |r| ==> r[i] == WithWorksAndAuthors(taken[i].quiz, works, users)
  {
    var taken := Listing.Quizzes(Listing.TakenOnly(Listing.Candidates(perClass, ScribblyTag), Listing.TakenIds(user)));
    seq(|taken|, i requires 0 <= i < |taken| => WithWorksAndAuthors(taken[i], works, users))
  }

  /** `GET /api/scribbly/finished`: the finished builder applied to the taken
      quizzes that pass the gate. */
  method Finished(db: Db, u: Oid, domain: string, perClass: seq<seq<Listing.Listed>>) returns (r: seq<Doc>)
    requires u in db.users
    ensures var account := Get(db.users[u], "account");
            var kept := FinishedFilter(TakenQuizzes(db.users[u], db.scribblyWorks, db.users, perClass), account);
            |r| == |kept| &&
            forall i :: 0 <= i < |kept| ==> r[i] == ScribblyLogic.FinishedQuizView(domain, kept[i], u, account)
  {
    var account := Get(db.users[u], "account");
    var kept := FinishedFilter(TakenQuizzes(db.users[u], db.scribblyWorks, db.users, perClass), account);
    r := ScribblyLogic.BuildFinished(domain, kept, u, account);
    MapSeqSpec((quiz: Doc) => ScribblyLogic.FinishedQuizView(domain, quiz, u, account), kept);
  }

  /** A taken group quiz whose viewer has no complete group work appears in
      neither list: it is not a to-do because it is taken, and the gate keeps
      it out of the finished list. */
  lemma IncompleteGroupInNeitherList(user: Doc, works: map<Oid, Doc>, users: map<Oid, Doc>,
                                     perClass: seq<seq<Listing.Listed>>, e: Listing.Listed)
    requires e in Listing.Candidates(perClass, ScribblyTag)
    requires Ref(e.id) in Listing.TakenIds(user)
    requires Get(e.quiz, "scribblyType") == Str("group")
    requires var populated := Items(Get(WithWorksAndAuthors(e.quiz, works, users), "studentWorks"));
             var mine := ScribblyLogic.FindGroupWorkByUserAccount(populated, Get(user, "account"));
             mine.None? || !GroupComplete(populated[mine.value])
    ensures e !in Listing.NotTaken(Listing.Candidates(perClass, ScribblyTag), Listing.TakenIds(user))
    ensures WithWorksAndAuthors(e.quiz, works, users)
              !in FinishedFilter(TakenQuizzes(user, works, users, perClass), Get(user, "account"))
  {
    var q := WithWorksAndAuthors(e.quiz, works, users);
    assert Get(q, "scribblyType") == Str("group");
    assert !KeepFinished(q, Get(user, "account"));
  }

  // ---------------------------------------------------------------------
  // PATCH /api/scribbly/:quizId
  // ---------------------------------------------------------------------

  /** `PATCH /api/scribbly/:quizId`: a body naming `quizId` is refused before
      any lookup; a patch the quiz schema rejects is not saved; otherwise the
      quiz gets every declared body field. */
  method Patch(db: Db, u: Oid, quizId: Json, body: Doc) returns (r: Reply<Oid>)
    requires u in db.users
    modifies db`scribblies
    ensures r.Rejected? <==> !UserModel.IsAdmin(db.users[u]) || "quizId" in body
    ensures r.NotFound? <==> UserModel.IsAdmin(db.users[u]) && "quizId" !in body
                             && !HasMatch(old(db.scribblies), "quizId", quizId)
    ensures r.Fails? ==> exists q :: q in old(db.scribblies) && Get(old(db.scribblies)[q], "quizId") == quizId
                                     && !ScribblyModel.Valid(old(db.scribblies)[q] + Populate.Project(body, ScribblyModel.Paths))
    ensures !r.Ok? ==> db.scribblies == old(db.scribblies)
    ensures r.Ok? ==> r.value in old(db.scribblies) && Get(old(db.scribblies)[r.value], "quizId") == quizId
                      && db.scribblies == old(db.scribblies)[r.value := old(db.scribblies)[r.value]
                                                               + Populate.Project(body, ScribblyModel.Paths)]
                      && ScribblyModel.Valid(db.scribblies[r.value])
  {
    if !UserModel.IsAdmin(db.users[u]) || "quizId" in body {
      return Rejected;
    }
    var found := FindOne(db.scribblies, "quizId", quizId);
    if found.None? {
      return NotFound;
    }
    var updated := Logic.UpdateDocument(db.scribblies[found.value], body, ScribblyModel.Paths, ScribblyModel.Valid);
    if updated.None? {
      return Fails;
    }
    db.scribblies := db.scribblies[found.value := updated.value];
    r := Ok(found.value);
  }
}
