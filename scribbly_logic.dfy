/** The Scribbly helpers of src/routers/logic/scribbly-logic.js: finding a
    user's group work, and building the per-viewer need-to-do and finished
    objects out of the serialised quizzes. */
module ScribblyLogic {
  import opened Json
  import opened ScribblyWorkModel
  import ScribblyModel
  import UserModel
  import Listing

  /** `work.author.includes(userId)`; on bare author ids the stringified
      comparison of `findGroupStudentWorkByUserId_Obj` agrees with it. */
  predicate HasAuthorId(work: Json, uid: Oid) {
    Ref(uid) in Authors(work)
  }

  /** The `account` of every author of a work, in order. */
  function AuthorAccounts(work: Json): (r: seq<Json>)
    ensures |r| == |Authors(work)|
    ensures forall i :: 0 <= i < |r| ==> r[i] == Field(Authors(work)[i], "account")
  {
    var authors := Authors(work);
    seq(|authors|, i requires 0 <= i < |authors| => Field(authors[i], "account"))
  }

  /** `work.author.some(auth => auth.account === user.account)`: a match on the
      populated authors' account, not on their id. */
  predicate HasAuthorAccount(work: Json, account: Json) {
    account in AuthorAccounts(work)
  }

  /** `findGroupStudentWorkByUserId` (and `findGroupStudentWorkByUserId_Obj`):
      the position of the first work whose authors include the user, or none
      when no work does. */
  function FindGroupWorkByUserId(works: seq<Json>, uid: Oid): (r: Option<nat>)
    ensures r.Some? ==> r.value < |works| && HasAuthorId(works[r.value], uid)
    ensures r.Some? ==> forall j :: 0 <= j < r.value ==> !HasAuthorId(works[j], uid)
    ensures r.None? <==> forall j :: 0 <= j < |works| ==> !HasAuthorId(works[j], uid)
  {
    FirstIndex(works, (work: Json) => HasAuthorId(work, uid))
  }

  /** `findGroupStudentWorkByUserAccount`: the position of the first work with
      an author whose account is the user's, or none. */
  function FindGroupWorkByUserAccount(works: seq<Json>, account: Json): (r: Option<nat>)
    ensures r.Some? ==> r.value < |works| && HasAuthorAccount(works[r.value], account)
    ensures r.Some? ==> forall j :: 0 <= j < r.value ==> !HasAuthorAccount(works[j], account)
    ensures r.None? <==> forall j :: 0 <= j < |works| ==> !HasAuthorAccount(works[j], account)
  {
    FirstIndex(works, (work: Json) => HasAuthorAccount(work, account))
  }

  /** The two finders agree on any two work lists with the same authors
      position by position. */
  lemma FindByIdSameAuthors(a: seq<Json>, b: seq<Json>, uid: Oid)
    requires |a| == |b|
    requires forall i :: 0 <= i < |a| ==> Authors(a[i]) == Authors(b[i])
    ensures FindGroupWorkByUserId(a, uid) == FindGroupWorkByUserId(b, uid)
  {
    var p := (work: Json) => HasAuthorId(work, uid);
    FirstIndexAgrees(a, b, p, p);
  }

  lemma FindByAccountSameAccounts(a: seq<Json>, b: seq<Json>, account: Json)
    requires |a| == |b|
    requires forall i :: 0 <= i < |a| ==> (HasAuthorAccount(a[i], account) <==> HasAuthorAccount(b[i], account))
    ensures FindGroupWorkByUserAccount(a, account) == FindGroupWorkByUserAccount(b, account)
  {
    var p := (work: Json) => HasAuthorAccount(work, account);
    FirstIndexAgrees(a, b, p, p);
  }

  /** `checkWhetherUserReactedOrNot`: whether the user's id is in the list. */
  predicate Reacted(reactList: seq<Json>, uid: Oid) {
    Ref(uid) in reactList
  }

  // ---------------------------------------------------------------------
  // Need-to-do objects
  // ---------------------------------------------------------------------

  /** One quiz of the need-to-do list as the builder leaves its `toJSON` form.
      A group quiz takes the user's group work's `status` as `isTaken` and its
      image URL when it has one; a group quiz in which the user has no work
      makes the builder throw (none). */
  function NeedToDoView(quiz: Doc, uid: Oid): Option<Doc>
  {
    if Get(quiz, "scribblyType") == Str("group") then
      var works := Items(Get(quiz, "studentWorks"));
      match FindGroupWorkByUserId(works, uid)
      case None => None
      case Some(i) =>
        var w := works[i];
        var withUrl := if Truthy(Field(w, "studentWorkURL")) then quiz["studentWorkURL" := Field(w, "studentWorkURL")] else quiz;
        Some(Listing.WithStatus(withUrl["isTaken" := Field(w, "status")] - {"studentWorks"}, "to-do"))
    else
      Some(Listing.WithStatus(quiz - {"studentWorks"}, "to-do"))
  }

  /** What the need-to-do builder makes of one serialised quiz: it throws
      exactly for a group quiz without a work of the user; otherwise the quiz
      is marked `'to-do'` and loses its works, and a group quiz reports the
      user's work's `status` as `isTaken` and copies its image URL when it
      has one. */
  lemma NeedToDoViewFails(quiz: Doc, uid: Oid)
    ensures NeedToDoView(quiz, uid).None? <==>
              Get(quiz, "scribblyType") == Str("group")
              && FindGroupWorkByUserId(Items(Get(quiz, "studentWorks")), uid).None?
  {
  }

  lemma NeedToDoViewGroup(quiz: Doc, uid: Oid)
    ensures var r := NeedToDoView(quiz, uid);
            var works := Items(Get(quiz, "studentWorks"));
            r.Some? && Get(quiz, "scribblyType") == Str("group") ==>
              var w := works[FindGroupWorkByUserId(works, uid).value];
              Get(r.value, "isTaken") == Field(w, "status")
              && (Truthy(Field(w, "studentWorkURL")) ==> Get(r.value, "studentWorkURL") == Field(w, "studentWorkURL"))
              && (!Truthy(Field(w, "studentWorkURL")) ==> Get(r.value, "studentWorkURL") == Get(quiz, "studentWorkURL"))
  {
  }

  lemma NeedToDoViewKeeps(quiz: Doc, uid: Oid)
    ensures var r := NeedToDoView(quiz, uid);
            r.Some? ==> "studentWorks" !in r.value && Get(r.value, "status") == Str("to-do")
    ensures var r := NeedToDoView(quiz, uid);
            r.Some? && Get(quiz, "scribblyType") != Str("group") ==>
              forall k :: k != "studentWorks" && k != "status" ==> Get(r.value, k) == Get(quiz, k)
    ensures var r := NeedToDoView(quiz, uid);
            r.Some? ==>
              forall k :: k !in {"studentWorks", "status", "isTaken", "studentWorkURL"} ==> Get(r.value, k) == Get(quiz, k)
  {
  }

  /** Serialising a quiz keeps every work's authors, so the builder finds the
      same group work in the `toJSON` form as in the stored quiz. */
  lemma GroupLookupSurvivesToJSON(domain: string, quiz: Doc, uid: Oid)
    ensures FindGroupWorkByUserId(Items(Get(ScribblyModel.QuizView(domain, quiz), "studentWorks")), uid)
            == FindGroupWorkByUserId(Items(Get(quiz, "studentWorks")), uid)
  {
    var works := Items(Get(quiz, "studentWorks"));
    var views := Items(Get(ScribblyModel.QuizView(domain, quiz), "studentWorks"));
    forall i | 0 <= i < |works|
      ensures Authors(views[i]) == Authors(works[i])
    {
      assert views[i] == ScribblyModel.WorkItemView(domain, works[i]);
    }
    FindByIdSameAuthors(views, works, uid);
  }

  /** One stored quiz as the need-to-do builder returns it. */
  function NeedToDoEntry(domain: string, quiz: Doc, uid: Oid): Option<Doc> {
    NeedToDoView(ScribblyModel.QuizView(domain, quiz), uid)
  }

  /** `needToDoList.map(quiz => quiz.toJSON())` */
  method SerialiseAll(domain: string, quizzes: seq<Doc>) returns (r: seq<Doc>)
    ensures |r| == |quizzes|
    ensures forall i :: 0 <= i < |quizzes| ==> r[i] == ScribblyModel.QuizView(domain, quizzes[i])
  {
    r := [];
    var i := 0;
    while i < |quizzes|
      invariant i <= |quizzes|
      invariant |r| == i
      invariant forall k :: 0 <= k < i ==> r[k] == ScribblyModel.QuizView(domain, quizzes[k])
    {
      var json := ScribblyModel.ToJSON(domain, quizzes[i]);
      r := r + [json];
      i := i + 1;
    }
  }

  /** `buildReturnedObjectNeedToDo`: every quiz serialised, then rewritten by
      `NeedToDoView` in a `forEach`, in order; the whole call fails as soon as
      one group quiz has no work of the user. */
  method BuildNeedToDo(domain: string, quizzes: seq<Doc>, uid: Oid) returns (r: Reply<seq<Doc>>)
    ensures r.Ok? || r.Fails?
    ensures r.Ok? <==> CollectSeq((quiz: Doc) => NeedToDoEntry(domain, quiz, uid), quizzes).Some?
    ensures r.Ok? ==> r.value == CollectSeq((quiz: Doc) => NeedToDoEntry(domain, quiz, uid), quizzes).value
  {
    var jsons := SerialiseAll(domain, quizzes);
    var entry := (quiz: Doc) => NeedToDoEntry(domain, quiz, uid);
    var out: seq<Doc> := [];
    var i := 0;
    while i < |jsons|
      invariant i <= |jsons|
      invariant CollectSeq(entry, quizzes[..i]) == Some(out)
    {
      var next := NeedToDoView(jsons[i], uid);
      assert quizzes[..i + 1][..i] == quizzes[..i];
      if next.None? {
        CollectSeqSucceeds(entry, quizzes);
        return Fails;
      }
      out := out + [next.value];
      i := i + 1;
    }
    assert quizzes[..i] == quizzes;
    r := Ok(out);
  }

  // ---------------------------------------------------------------------
  // Finished objects
  // ---------------------------------------------------------------------

  /** `list.some(id => JSON.stringify(id) === JSON.stringify(user._id))` */
  predicate Voted(work: Doc, kind: string, uid: Oid) {
    Ref(uid) in Items(Get(work, kind))
  }

  /** `auth.avatarURL = DOMAIN + "api/users/" + auth.account + "/avatar"` on one
      populated author, whether or not the author has an avatar. */
  function AuthorView(domain: string, author: Json): (r: Json)
    ensures author.Obj? ==> r.Obj? && Field(r, "avatarURL") == Str(UserModel.AvatarURL(domain, Field(author, "account")))
    ensures author.Obj? ==> forall k :: k != "avatarURL" ==> Field(r, k) == Field(author, k)
    ensures !author.Obj? ==> r == author
  {
    if author.Obj? then Obj(author.fields["avatarURL" := Str(UserModel.AvatarURL(domain, Field(author, "account")))])
    else author
  }

  /** The three voted flags, read from the reaction lists of `work`. */
  function WithVotedFlags(view: Doc, work: Doc, uid: Oid): (r: Doc)
    ensures Get(r, "isHahaVoted") == Bool(Voted(work, "hahaReact", uid))
    ensures Get(r, "isWowVoted") == Bool(Voted(work, "wowReact", uid))
    ensures Get(r, "isLoveVoted") == Bool(Voted(work, "loveReact", uid))
    ensures forall k :: k !in {"isHahaVoted", "isWowVoted", "isLoveVoted"} ==> Get(r, k) == Get(view, k)
  {
    view["isHahaVoted" := Bool(Voted(work, "hahaReact", uid))]
        ["isWowVoted" := Bool(Voted(work, "wowReact", uid))]
        ["isLoveVoted" := Bool(Voted(work, "loveReact", uid))]
  }

  /** Every author of `work` given an avatar URL. */
  function WithAuthorViews(domain: string, view: Doc, work: Doc): (r: Doc)
    ensures |Items(Get(r, "author"))| == |Items(Get(work, "author"))|
    ensures forall i :: 0 <= i < |Items(Get(work, "author"))| ==>
              Items(Get(r, "author"))[i] == AuthorView(domain, Items(Get(work, "author"))[i])
    ensures forall k :: k != "author" ==> Get(r, k) == Get(view, k)
  {
    var authors := Items(Get(work, "author"));
    view["author" := Arr(seq(|authors|, i requires 0 <= i < |authors| => AuthorView(domain, authors[i])))]
  }

  /** One work of a finished quiz as the builder leaves it: the three voted
      flags read from the reaction lists before the lists become counts, every
      author given an avatar URL, and otherwise the display form `toJSON`
      gives a work (`ScribblyModel.WorkView`: image URL iff an image, no image
      bytes, reaction counts, react URLs). */
  function FinishedWorkFields(domain: string, work: Doc, uid: Oid): Doc {
    WithAuthorViews(domain, WithVotedFlags(ScribblyModel.WorkView(domain, work), work, uid), work)
  }

  lemma FinishedWorkFieldsVoted(domain: string, work: Doc, uid: Oid)
    ensures var r := FinishedWorkFields(domain, work, uid);
            Get(r, "isHahaVoted") == Bool(Voted(work, "hahaReact", uid))
            && Get(r, "isWowVoted") == Bool(Voted(work, "wowReact", uid))
            && Get(r, "isLoveVoted") == Bool(Voted(work, "loveReact", uid))
  {
  }

  lemma FinishedWorkFieldsAuthors(domain: string, work: Doc, uid: Oid)
    ensures var r := FinishedWorkFields(domain, work, uid);
            |Items(Get(r, "author"))| == |Items(Get(work, "author"))|
            && forall i :: 0 <= i < |Items(Get(work, "author"))| ==>
                 Items(Get(r, "author"))[i] == AuthorView(domain, Items(Get(work, "author"))[i])
  {
  }

  lemma FinishedWorkFieldsOthers(domain: string, work: Doc, uid: Oid)
    ensures forall k :: k !in {"isHahaVoted", "isWowVoted", "isLoveVoted", "author"} ==>
              Get(FinishedWorkFields(domain, work, uid), k) == Get(ScribblyModel.WorkView(domain, work), k)
  {
  }

  function FinishedWorkView(domain: string, work: Json, uid: Oid): Json {
    if work.Obj? then Obj(FinishedWorkFields(domain, work.fields, uid)) else work
  }

  /** The builder's rewriting keeps each author's account, so it changes
      neither which works match the viewer. */
  lemma FinishedWorkKeepsAccounts(domain: string, work: Json, uid: Oid)
    ensures AuthorAccounts(FinishedWorkView(domain, work, uid)) == AuthorAccounts(work)
  {
    if work.Obj? {
      var fields := FinishedWorkFields(domain, work.fields, uid);
      FinishedWorkFieldsAuthors(domain, work.fields, uid);
      var authors := Authors(work);
      var viewed := Authors(Obj(fields));
      assert FinishedWorkView(domain, work, uid) == Obj(fields);
      forall i | 0 <= i < |authors|
        ensures AuthorAccounts(Obj(fields))[i] == AuthorAccounts(work)[i]
      {
        AuthorViewKeepsAccount(domain, authors[i]);
      }
    }
  }

  /** An author's avatar view keeps the author's account. */
  lemma AuthorViewKeepsAccount(domain: string, author: Json)
    ensures Field(AuthorView(domain, author), "account") == Field(author, "account")
  {
  }

  /** The rewriting keeps the progress counter. */
  lemma FinishedWorkKeepsCounter(domain: string, work: Doc, uid: Oid)
    ensures Get(FinishedWorkFields(domain, work, uid), "curTaskDesc") == Get(work, "curTaskDesc")
  {
    FinishedWorkFieldsOthers(domain, work, uid);
  }

  /** The rewriting keeps the progress counter and the number of authors, so
      a work is complete after it exactly when it was before. */
  lemma FinishedWorkKeepsCompleteness(domain: string, work: Json, uid: Oid)
    ensures GroupComplete(FinishedWorkView(domain, work, uid)) <==> GroupComplete(work)
  {
    if work.Obj? {
      var fields := FinishedWorkFields(domain, work.fields, uid);
      FinishedWorkFieldsAuthors(domain, work.fields, uid);
      FinishedWorkKeepsCounter(domain, work.fields, uid);
      assert FinishedWorkView(domain, work, uid) == Obj(fields);
    }
  }

  /** All works of a quiz rewritten by `FinishedWorkView`, in order. */
  function FinishedWorkViews(domain: string, works: seq<Json>, uid: Oid): seq<Json> {
    MapSeq((work: Json) => FinishedWorkView(domain, work, uid), works)
  }

  /** `quiz.studentWorks.filter(...)` for `classmateWork`: the works with no
      author matching the viewer that are complete, or all such works in an
      individual quiz. */
  function Classmates(works: seq<Json>, account: Json, individual: bool): (r: seq<Json>)
    ensures forall w :: w in r <==> w in works && !HasAuthorAccount(w, account) && (GroupComplete(w) || individual)
  {
    if works == [] then []
    else if !HasAuthorAccount(works[0], account) && (GroupComplete(works[0]) || individual)
    then [works[0]] + Classmates(works[1..], account, individual)
    else Classmates(works[1..], account, individual)
  }

  /** One finished quiz, given its rewritten works: status `'finished'`, the
      viewer's own work as `myWork`, the classmates' works as
      `classmateWork`, and no `studentWorks`. */
  function FinishedQuizFrom(quiz: Doc, works: seq<Json>, account: Json): Doc {
    var base := quiz["status" := Str("finished")]
                    ["classmateWork" := Arr(Classmates(works, account, Get(quiz, "scribblyType") == Str("individual")))];
    var withMine := match FindGroupWorkByUserAccount(works, account)
                    case Some(i) => base["myWork" := works[i]]
                    case None => base - {"myWork"};
    withMine - {"studentWorks"}
  }

  /** What a finished quiz holds. */
  lemma FinishedQuizFromSpec(quiz: Doc, works: seq<Json>, account: Json)
    ensures var r := FinishedQuizFrom(quiz, works, account);
            Get(r, "status") == Str("finished") && "studentWorks" !in r
    ensures Get(FinishedQuizFrom(quiz, works, account), "classmateWork") ==
              Arr(Classmates(works, account, Get(quiz, "scribblyType") == Str("individual")))
    ensures forall k :: k !in {"status", "studentWorks", "myWork", "classmateWork"} ==>
              Get(FinishedQuizFrom(quiz, works, account), k) == Get(quiz, k)
  {
  }

  /** The viewer's own work in a finished quiz: the first work with an author
      of the viewer's account, absent when there is none. */
  lemma FinishedQuizMyWork(quiz: Doc, works: seq<Json>, account: Json)
    ensures var r := FinishedQuizFrom(quiz, works, account);
            var mine := FindGroupWorkByUserAccount(works, account);
            (mine.Some? ==> Get(r, "myWork") == works[mine.value]) && (mine.None? ==> "myWork" !in r)
  {
  }

  /** One quiz of the finished list as `buildReturnedObjectFinished` leaves
      its stored form (`toObject`, works and authors populated). */
  function FinishedQuizView(domain: string, quiz: Doc, uid: Oid, account: Json): Doc {
    FinishedQuizFrom(quiz, FinishedWorkViews(domain, Items(Get(quiz, "studentWorks")), uid), account)
  }

  /** The viewer's own work is never also listed among the classmates' works. */
  lemma MyWorkNotClassmate(domain: string, quiz: Doc, uid: Oid, account: Json)
    ensures var r := FinishedQuizView(domain, quiz, uid, account);
            "myWork" in r ==> Get(r, "myWork") !in Items(Get(r, "classmateWork"))
  {
    var works := FinishedWorkViews(domain, Items(Get(quiz, "studentWorks")), uid);
    FinishedQuizFromSpec(quiz, works, account);
    FinishedQuizMyWork(quiz, works, account);
    var found := FindGroupWorkByUserAccount(works, account);
    if found.Some? {
      assert HasAuthorAccount(works[found.value], account);
    }
  }

  /** The inner `forEach` over one quiz's works. */
  method FinishedWorksLoop(domain: string, works: seq<Json>, uid: Oid) returns (r: seq<Json>)
    ensures r == FinishedWorkViews(domain, works, uid)
  {
    var view := (work: Json) => FinishedWorkView(domain, work, uid);
    r := [];
    var i := 0;
    while i < |works|
      invariant i <= |works|
      invariant r == MapSeq(view, works[..i])
    {
      assert works[..i + 1][..i] == works[..i];
      r := r + [FinishedWorkView(domain, works[i], uid)];
      i := i + 1;
    }
    assert works[..i] == works;
  }

  /** One iteration of the builder's outer `forEach`. */
  method FinishedQuiz(domain: string, quiz: Doc, uid: Oid, account: Json) returns (r: Doc)
    ensures r == FinishedQuizView(domain, quiz, uid, account)
  {
    var works := FinishedWorksLoop(domain, Items(Get(quiz, "studentWorks")), uid);
    r := FinishedQuizFrom(quiz, works, account);
  }

  /** `buildReturnedObjectFinished`: every quiz rewritten by
      `FinishedQuizView`, in order. */
  method BuildFinished(domain: string, quizzes: seq<Doc>, uid: Oid, account: Json) returns (r: seq<Doc>)
    ensures r == MapSeq((quiz: Doc) => FinishedQuizView(domain, quiz, uid, account), quizzes)
  {
    var finished := (quiz: Doc) => FinishedQuizView(domain, quiz, uid, account);
    r := [];
    var i := 0;
    while i < |quizzes|
      invariant i <= |quizzes|
      invariant r == MapSeq(finished, quizzes[..i])
    {
      var view := FinishedQuiz(domain, quizzes[i], uid, account);
      assert quizzes[..i + 1][..i] == quizzes[..i];
      r := r + [view];
      i := i + 1;
    }
    assert quizzes[..i] == quizzes;
  }
}
