/** A Scribbly student work (src/models/scribbly-studentwork.js): one drawing
    owned by a list of authors, so that a group shares a single work, with a
    progress counter `curTaskDesc` and three independent reaction lists. */
module ScribblyWorkModel {
  import opened Json
  import Populate

  /** The schema defaults of a new work. */
  const WorkDefaults: Doc := map[
    "author" := Arr([]),
    "curTaskDesc" := Num(0),
    "status" := Str("free"),
    "score" := Num(-1),
    "tryCount" := Num(1),
    "wowReact" := Arr([]),
    "hahaReact" := Arr([]),
    "loveReact" := Arr([])
  ]

  /** The paths the work schema declares; strict mode drops every other key. */
  const WorkPaths: set<string> := {
    "studentWork", "author", "curTaskDesc", "status", "score", "tryCount", "teacherComment",
    "takenDate", "duration", "wowReact", "hahaReact", "loveReact"
  }

  /** `new ScribblyStudentWork(data)`: every declared field as given, the
      defaults elsewhere, and no undeclared field. */
  function NewWork(data: Doc): (r: Doc)
    ensures forall k :: k in data && k in WorkPaths ==> Get(r, k) == data[k]
    ensures forall k :: k !in WorkPaths ==> k !in r
    ensures "curTaskDesc" !in data ==> Get(r, "curTaskDesc") == Num(0)
    ensures "status" !in data ==> Get(r, "status") == Str("free")
    ensures "score" !in data ==> Get(r, "score") == Num(-1)
    ensures "tryCount" !in data ==> Get(r, "tryCount") == Num(1)
    ensures "wowReact" !in data ==> Get(r, "wowReact") == Arr([])
    ensures "hahaReact" !in data ==> Get(r, "hahaReact") == Arr([])
    ensures "loveReact" !in data ==> Get(r, "loveReact") == Arr([])
  {
    WorkDefaults + Populate.Project(data, WorkPaths)
  }

  /** The authors of a work. */
  function Authors(work: Json): seq<Json> {
    Items(Field(work, "author"))
  }

  /** `work.curTaskDesc >= work.author.length`: every group member has
      submitted.  A comparison with a non-number is false. */
  predicate GroupComplete(work: Json) {
    Field(work, "curTaskDesc").Num? && Field(work, "curTaskDesc").n >= |Authors(work)|
  }

  /** A group work as created for a non-empty group is not yet complete. */
  lemma NewGroupWorkIncomplete(group: seq<Json>)
    requires group != []
    ensures !GroupComplete(Obj(NewWork(map["author" := Arr(group)])))
  {
    var w := NewWork(map["author" := Arr(group)]);
    assert Get(w, "curTaskDesc") == Num(0);
    assert Authors(Obj(w)) == group;
  }
}
