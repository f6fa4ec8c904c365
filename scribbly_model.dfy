/** The Scribbly quiz (src/models/scribbly.js): its defaults and `toJSON`,
    which rewrites every populated student work for display. */
module ScribblyModel {
  import opened Json
  import opened ScribblyWorkModel
  import Populate

  const ScribblyDefaults: Doc := map[
    "quizType" := Str("Scribbly"),
    "scribblyType" := Str("individual"),
    "classes" := Arr([]),
    "taksDescription" := Arr([]),
    "studentWorks" := Arr([])
  ]

  /** The paths the Scribbly schema declares; strict mode drops every other key. */
  const Paths: set<string> := {
    "quizType", "quizId", "quizName", "scribblyType", "author", "createdDate", "maxPoint",
    "numberOfAttempt", "maxTime", "dueDate", "classes", "taksDescription", "studentWorks"
  }

  /** `new ScribblyQuiz(data)`: every declared field as given, the defaults
      elsewhere, and no undeclared field. */
  function NewScribbly(data: Doc): (r: Doc)
    ensures forall k :: k in data && k in Paths ==> Get(r, k) == data[k]
    ensures forall k :: k !in Paths ==> k !in r
    ensures "quizType" !in data ==> Get(r, "quizType") == Str("Scribbly")
    ensures "scribblyType" !in data ==> Get(r, "scribblyType") == Str("individual")
  {
    ScribblyDefaults + Populate.Project(data, Paths)
  }

  /** What `save` validates on a Scribbly quiz: `quizId` and `quizName` are
      present. */
  predicate Valid(d: Doc) {
    Present(Get(d, "quizId")) && Present(Get(d, "quizName"))
  }

  /** `${DOMAIN}api/scribbly-work/img/${work._id}` */
  function WorkImageURL(domain: string, id: Json): string {
    domain + "api/scribbly-work/img/" + Text(id)
  }

  /** `${DOMAIN}api/scribbly/react/<kind>/${work._id}` */
  function ReactURL(domain: string, kind: string, id: Json): string {
    domain + "api/scribbly/react/" + kind + "/" + Text(id)
  }

  /** The length a reaction list is replaced by. */
  function ReactCount(work: Doc, kind: string): Json {
    Num(|Items(Get(work, kind))|)
  }

  /** The react-toggle URLs of a work, added under `<kind>API_URL`. */
  function WithReactURLs(domain: string, work: Doc, id: Json): (r: Doc)
    ensures Get(r, "loveReactAPI_URL") == Str(ReactURL(domain, "loveReact", id))
    ensures Get(r, "wowReactAPI_URL") == Str(ReactURL(domain, "wowReact", id))
    ensures Get(r, "hahaReactAPI_URL") == Str(ReactURL(domain, "hahaReact", id))
    ensures forall k :: k !in {"loveReactAPI_URL", "wowReactAPI_URL", "hahaReactAPI_URL"} ==>
              Get(r, k) == Get(work, k)
  {
    work["loveReactAPI_URL" := Str(ReactURL(domain, "loveReact", id))]
        ["wowReactAPI_URL" := Str(ReactURL(domain, "wowReact", id))]
        ["hahaReactAPI_URL" := Str(ReactURL(domain, "hahaReact", id))]
  }

  /** One student work as `toJSON` leaves it: an image URL exactly when it had
      an image, never the image bytes, reaction counts instead of reaction
      lists, and the three react URLs. */
  function WorkView(domain: string, work: Doc): (r: Doc)
    ensures "studentWork" !in r
    ensures Truthy(Get(work, "studentWork")) ==>
              Get(r, "studentWorkURL") == Str(WorkImageURL(domain, Get(work, "_id")))
    ensures !Truthy(Get(work, "studentWork")) ==> Get(r, "studentWorkURL") == Get(work, "studentWorkURL")
    ensures Get(r, "loveReact") == Num(|Items(Get(work, "loveReact"))|)
    ensures Get(r, "hahaReact") == Num(|Items(Get(work, "hahaReact"))|)
    ensures Get(r, "wowReact") == Num(|Items(Get(work, "wowReact"))|)
    ensures Get(r, "loveReactAPI_URL") == Str(ReactURL(domain, "loveReact", Get(work, "_id")))
    ensures Get(r, "wowReactAPI_URL") == Str(ReactURL(domain, "wowReact", Get(work, "_id")))
    ensures Get(r, "hahaReactAPI_URL") == Str(ReactURL(domain, "hahaReact", Get(work, "_id")))
    ensures forall k :: k !in {"studentWork", "studentWorkURL", "loveReact", "hahaReact", "wowReact",
                               "loveReactAPI_URL", "wowReactAPI_URL", "hahaReactAPI_URL"} ==>
              Get(r, k) == Get(work, k)
  {
    var id := Get(work, "_id");
    var withUrl := if Truthy(Get(work, "studentWork"))
                   then work["studentWorkURL" := Str(WorkImageURL(domain, id))]
                   else work;
    var counted := (withUrl - {"studentWork"})["loveReact" := ReactCount(work, "loveReact")]
                                              ["hahaReact" := ReactCount(work, "hahaReact")]
                                              ["wowReact" := ReactCount(work, "wowReact")];
    WithReactURLs(domain, counted, id)
  }

  /** A populated work entry; an entry that is still a bare id is left as is. */
  function WorkItemView(domain: string, item: Json): Json {
    if item.Obj? then Obj(WorkView(domain, item.fields)) else item
  }

  /** The quiz as `toJSON` leaves it: each populated work rewritten by
      `WorkView`, in order; nothing else of the quiz changes. */
  function QuizView(domain: string, quiz: Doc): (r: Doc)
    ensures Get(r, "studentWorks").Arr?
    ensures |Items(Get(r, "studentWorks"))| == |Items(Get(quiz, "studentWorks"))|
    ensures forall i :: 0 <= i < |Items(Get(quiz, "studentWorks"))| ==>
              Items(Get(r, "studentWorks"))[i] == WorkItemView(domain, Items(Get(quiz, "studentWorks"))[i])
    ensures forall k :: k != "studentWorks" ==> Get(r, k) == Get(quiz, k)
  {
    var works := Items(Get(quiz, "studentWorks"));
    quiz["studentWorks" := Arr(seq(|works|, i requires 0 <= i < |works| => WorkItemView(domain, works[i])))]
  }

  /** `toJSON`, which rewrites the works in a `forEach`. */
  method ToJSON(domain: string, quiz: Doc) returns (r: Doc)
    ensures r == QuizView(domain, quiz)
  {
    var works := Items(Get(quiz, "studentWorks"));
    var views: seq<Json> := [];
    var i := 0;
    while i < |works|
      invariant i <= |works|
      invariant |views| == i
      invariant forall k :: 0 <= k < i ==> views[k] == WorkItemView(domain, works[k])
    {
      views := views + [WorkItemView(domain, works[i])];
      i := i + 1;
    }
    assert views == seq(|works|, k requires 0 <= k < |works| => WorkItemView(domain, works[k]));
    r := quiz["studentWorks" := Arr(views)];
  }
}
