/** The serialised form of one populated question entry `{ info, questionType }`,
    as both `PicQuizz.toJSON` (src/models/pic-quiz.js:66-71) and `Quiz.toJSON`
    (src/models/quiz.js:48-53) produce it; they differ only in the route prefix
    of the update URL. */
module QuestionItems {
  import opened Json

  /** `${DOMAIN}api/question/${info.questionType}/${info._id}` */
  function QuestionImageURL(domain: string, info: Doc): string {
    domain + "api/question/" + Text(Get(info, "questionType")) + "/" + Text(Get(info, "_id"))
  }

  /** `${DOMAIN}<api><quizId>/${info.questionType}/${info._id}` */
  function UpdateQuestionURL(domain: string, api: string, quizId: Json, info: Doc): string {
    domain + api + Text(quizId) + "/" + Text(Get(info, "questionType")) + "/" + Text(Get(info, "_id"))
  }

  /** The question document after the serialiser has worked on it: an image URL
      only when it has an image, always an update URL, never the image bytes. */
  function InfoView(domain: string, api: string, quizId: Json, info: Doc): (r: Doc)
    ensures "questionImage" !in r
    ensures Truthy(Get(info, "questionImage")) ==>
              Get(r, "questionImageURL") == Str(QuestionImageURL(domain, info))
    ensures !Truthy(Get(info, "questionImage")) ==>
              Get(r, "questionImageURL") == Get(info, "questionImageURL")
    ensures Get(r, "updateQuestionAPI_URL") == Str(UpdateQuestionURL(domain, api, quizId, info))
    ensures forall k :: k != "questionImage" && k != "questionImageURL" && k != "updateQuestionAPI_URL" ==>
              Get(r, k) == Get(info, k)
  {
    var withImage := if Truthy(Get(info, "questionImage"))
                     then info["questionImageURL" := Str(QuestionImageURL(domain, info))]
                     else info;
    withImage["updateQuestionAPI_URL" := Str(UpdateQuestionURL(domain, api, quizId, info))] - {"questionImage"}
  }

  /** One entry of the question list.  Only an entry whose `info` was populated
      into an object is rewritten; the model's callers populate every entry. */
  function ItemView(domain: string, api: string, quizId: Json, item: Json): (r: Json)
    ensures Field(item, "info").Obj? ==>
              r.Obj? && Field(r, "info") == Obj(InfoView(domain, api, quizId, Field(item, "info").fields))
    ensures Field(item, "info").Obj? ==>
              forall k :: k != "info" ==> Field(r, k) == Field(item, k)
    ensures !Field(item, "info").Obj? ==> r == item
  {
    if item.Obj? && Field(item, "info").Obj? then
      Obj(item.fields["info" := Obj(InfoView(domain, api, quizId, Field(item, "info").fields))])
    else item
  }

  /** The whole question list serialised: one view per entry, in order. */
  function ItemsOf(domain: string, api: string, quizId: Json, items: seq<Json>): (r: seq<Json>)
    ensures |r| == |items|
    ensures forall i :: 0 <= i < |items| ==> r[i] == ItemView(domain, api, quizId, items[i])
  {
    seq(|items|, i requires 0 <= i < |items| => ItemView(domain, api, quizId, items[i]))
  }

  /** The serialiser's `forEach` over the question list. */
  method ItemsView(domain: string, api: string, quizId: Json, items: seq<Json>) returns (r: seq<Json>)
    ensures r == ItemsOf(domain, api, quizId, items)
  {
    r := [];
    var i := 0;
    while i < |items|
      invariant i <= |items|
      invariant |r| == i
      invariant forall k :: 0 <= k < i ==> r[k] == ItemView(domain, api, quizId, items[k])
    {
      r := r + [ItemView(domain, api, quizId, items[i])];
      i := i + 1;
    }
  }
}
