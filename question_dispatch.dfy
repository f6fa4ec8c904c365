/** Dispatch on a question's type tag (src/routers/logic/pic-quiz-logic.js).
    Two spellings of the tag are in use: the short form a request carries
    (`'fill-in-blank'`, anything else meaning multiple choice) and the model
    name stored in a quiz's question list (`'FillInBlankQuestion'`,
    `'MultipleChoiceQuestion'`). */
module QuestionDispatch {
  import opened Json

  /** The two question collections. */
  datatype Model = FillInBlank | MultipleChoice

  const FillInBlankTag := Str("fill-in-blank")
  const FillInBlankName := "FillInBlankQuestion"
  const MultipleChoiceName := "MultipleChoiceQuestion"

  /** The model name of a collection. */
  function ModelName(m: Model): (r: string)
    ensures r == FillInBlankName || r == MultipleChoiceName
    ensures r == FillInBlankName <==> m == FillInBlank
  {
    match m
    case FillInBlank => FillInBlankName
    case MultipleChoice => MultipleChoiceName
  }

  /** The collection `getDocumentByType` builds a new question in, which is
      also the one `findQuestionByType` searches: both take the short tag. */
  function DocumentByType(t: Json): (m: Model)
    ensures m == FillInBlank <==> t == FillInBlankTag
  {
    if t == FillInBlankTag then FillInBlank else MultipleChoice
  }

  /** `getModelNameByType`: the name stored as a question entry's `questionType`. */
  function ModelNameByType(t: Json): (r: string)
    ensures r == FillInBlankName || r == MultipleChoiceName
    ensures r == FillInBlankName <==> t == FillInBlankTag
  {
    if t == FillInBlankTag then FillInBlankName else MultipleChoiceName
  }

  /** The collection `deleteQuestionByType` deletes from; it takes the model name. */
  function DeleteTarget(t: Json): (m: Model)
    ensures m == FillInBlank <==> t == Str(FillInBlankName)
  {
    if t == Str(FillInBlankName) then FillInBlank else MultipleChoice
  }

  /** The paths each question schema declares (src/models/fill-in-blank-question.js,
      src/models/multiple-choice-question.js); strict mode drops every other key. */
  function QuestionPaths(m: Model): set<string> {
    match m
    case FillInBlank => {"question", "questionType", "answer", "questionDesc", "questionImage"}
    case MultipleChoice => {"question", "questionType", "answer", "questionDesc", "questionImage", "options"}
  }

  /** What `save` validates on a fill-in-blank question: only `answer` is
      required, the schema's `question` being spelled `require`. */
  predicate FillInBlankValid(d: Doc) {
    Present(Get(d, "answer"))
  }

  /** What `save` validates on a multiple-choice question: `question` and
      `answer` are both required. */
  predicate MultipleChoiceValid(d: Doc) {
    Present(Get(d, "question")) && Present(Get(d, "answer"))
  }

  /** The validation of a question in collection `m`. */
  predicate QuestionValid(m: Model, d: Doc) {
    match m
    case FillInBlank => FillInBlankValid(d)
    case MultipleChoice => MultipleChoiceValid(d)
  }

  /** The same document without a `question` is a valid fill-in-blank
      question and an invalid multiple-choice one. */
  lemma QuestionOnlyRequiredForMultipleChoice(d: Doc)
    requires Present(Get(d, "answer"))
    ensures QuestionValid(FillInBlank, d - {"question"})
    ensures !QuestionValid(MultipleChoice, d - {"question"})
  {
  }

  /** The `questionType` enum of a quiz's question entry: one of the two
      model names. */
  predicate QuestionModelValid(t: Json) {
    t == Str(FillInBlankName) || t == Str(MultipleChoiceName)
  }

  /** What `save` validates on a quiz's question entries: each has its
      `info` reference and a model name from the enum. */
  predicate EntriesValid(entries: seq<Json>) {
    forall e :: e in entries ==> Present(Field(e, "info")) && QuestionModelValid(Field(e, "questionType"))
  }

  /** Every tag `getModelNameByType` produces passes the enum. */
  lemma StoredNamesAreValid(t: Json)
    ensures QuestionModelValid(Str(ModelNameByType(t)))
  {
  }

  /** For every tag, the stored model name names the collection the question
      was built in. */
  lemma StoredNameMatchesBuiltDocument(t: Json)
    ensures ModelName(DocumentByType(t)) == ModelNameByType(t)
  {
  }

  /** Deleting by the stored model name reaches the collection that a lookup
      by the short tag searches. */
  lemma DeleteByStoredNameMatchesFind(t: Json)
    ensures DeleteTarget(Str(ModelNameByType(t))) == DocumentByType(t)
  {
  }

  /** `deleteQuestionByType` given the short fill-in-blank tag targets the
      multiple-choice collection. */
  lemma DeleteByShortTagMisses()
    ensures DeleteTarget(FillInBlankTag) == MultipleChoice
    ensures DocumentByType(FillInBlankTag) == FillInBlank
  {
  }
}
