# A classroom quiz backend, modelled in Dafny

The system is the Express/Mongoose backend of a classroom quiz application.
Admins (teachers) create classes, enrol students by account, and publish
four kinds of quiz to a class: picture quizzes (`PicQuizz`), plain quizzes
(`Quiz`), drawing quizzes done alone or in random groups (`Scribbly`), and
guess-the-picture quizzes. Students submit attempts, get a try number and
a cap on attempts, react to classmates' drawings, and see their quizzes
split into a to-do list and a finished list. Every document is serialised
through a `toJSON` that drops binary images and adds URLs.

The model keeps the store as maps from object ids to JSON-like documents
(`Store.Db`, one map per collection) and turns every handler into a method
that changes the collections it names and returns a `Reply`: `Ok`,
`NotFound` (404), `Rejected` (400/403 refusals and the admin check) or
`Fails` (a thrown error or failed validation answered 400/500). The
serialisers, the list builders and the helpers of `src/routers/logic/` are
functions over documents, with lemmas stating what they keep, add and drop.

Modules follow the source files:

- `Json`, `Store`: the document shape, `findOne`, fresh ids.
- `Logic`, `Populate`, `Listing`: `src/routers/logic/logic.js`, Mongoose
  `populate`/`select`, and the candidate / taken / not-taken filtering shared
  by the list handlers.
- `QuestionDispatch`, `QuestionItems`, `QuizCommon`: the question-type
  dispatch of `src/routers/logic/pic-quiz-logic.js`, the question views of
  the quiz serialisers, and the question and delete cascades shared by the
  picture-quiz and quiz routers.
- `*Model` modules: the schemas' declared paths, defaults, required
  fields, enums and `toJSON` in `src/models/`.
- `UserLogic`, `UserRouter`, `ClassRouter`, `PicQuizRouter`, `QuizRouter`,
  `ScribblyLogic`, `ScribblyRouter`, `GuessPicRouter`: the handlers and their
  helpers.

Decisions where the code does not settle the behaviour by itself:

- `src/routers/quiz.js` calls `getDocumentByType`, `getModelNameByType`,
  `findQuestionByType` and `deleteQuestionByType` on `logic.js`, which does
  not define them; the model resolves them to the dispatch of
  `pic-quiz-logic.js`, which the picture-quiz router uses.
- `createQuiz` (scribbly create) is modelled as `createDocument`;
  `injectStudentworkToQuiz` as appending a reference to the quiz's
  `studentWorks`; `getRandomGroups` and the per-class quiz lists
  (`getUserQuizzes`) are parameters. None of them is defined in the files
  modelled.
- Mongoose strict mode is a projection onto the schema's declared paths
  (`Populate.Project`), applied by every constructor and every field
  assignment; `save` validation is a predicate per schema (`Valid`,
  `QuestionValid`, `RequiredPresent`), in which a `required` string or
  buffer fails when absent, null, empty or an empty buffer.
- The attempt limit compares the try number with `numberOfAttempt`, which
  the schema casts to a number: a number refuses beyond it, `null` compares
  as 0, and an absent limit compares as `NaN` and never refuses.
- `Store.FindOne` picks any matching document. `classId` is not unique in the
  class schema, so which class `findOne` returns is left open; `quizId` is
  unique in every quiz schema, so there the open choice over-approximates:
  the creates of drawing and guess-picture quizzes refuse a stored `quizId`
  and keep a unique store unique (`Store.UniqueOn`), but the store as a
  whole is not required to be unique.

## Model

| member | source | states |
|---|---|---|
| Store.FindOne | src/routers/class.js:36-37 | a returned document carries the queried value, and nothing is returned exactly when no document matches |
| Store.InsertKeepsUnique | src/models/guess-pic.js:9-13 | a unique index admits an insert whose value no stored document holds, and the store stays unique |
| Logic.Assign | src/routers/logic/logic.js:46-48 | every declared field named in the updates takes its new value; every other field, present or absent, is as before; an undeclared key is dropped as strict mode does |
| Logic.UpdateDocument | src/routers/logic/logic.js:46-50 | the save succeeds exactly when the assigned document passes the schema's validation, and then the document is the assigned one |
| Logic.CreateDocument | src/routers/logic/logic.js:40-44 | the new document gets an id not used before, holds the declared fields of the data over the schema defaults and no undeclared one, and no other document changes |
| Logic.AttachWork | src/routers/scribbly.js:36 | the quiz's work list grows by exactly the new work's reference at the end; the rest of the quiz is kept |
| Logic.RecordTakenAddsMarker | src/routers/logic/logic.js:9-15 | recording a quiz adds exactly one more completion marker for it, with no check for an earlier one |
| Logic.InjectQuizToUser | src/routers/logic/logic.js:9-15 | succeeds exactly when the quiz type passes the user schema's enum; then only that user changes, by one marker; on failure no user changes |
| Logic.InjectQuizToUserAsWritten | src/routers/logic/logic.js:9-15 | the push onto `quizzes` succeeds exactly when the user holds an array there, and then appends one marker; otherwise it throws and no user changes |
| Logic.UsersHaveNoQuizzes | src/models/user.js:7-110 | a user document holding only declared paths, and every new user, has no `quizzes` array, so the push above always throws |
| Logic.InjectQuizToClass | src/routers/logic/logic.js:17-23 | succeeds exactly when the quiz type passes the class schema's enum; then one entry with the quiz and its type ends the class's quiz list |
| Logic.InjectUserToClass | src/routers/logic/logic.js:25-28 | the user's reference ends the class's student list; no user document changes |
| Logic.InjectParticipantToQuiz | src/routers/logic/logic.js:30-38 | the participant is pushed when the quiz has a participant list, and the call always ends in an error |
| Populate.PopulateRefsSpec | src/routers/scribbly.js:55-56 | a populated list holds exactly the referenced documents that exist; dangling references are dropped |
| Populate.PopulateOne | src/routers/pic-quiz.js:78-84 | a reference to an existing document becomes that document, a dangling one becomes null, other values stay |
| Populate.Project | src/routers/pic-quiz.js:82 | only the selected fields remain, each with its stored value |
| Populate.ProjectAll | src/routers/scribbly.js:164-167 | every document of the collection is projected onto the selected fields, under the same id |
| Listing.Flatten | src/routers/pic-quiz.js:122-123 | an entry is in the flattened list exactly when it is in one of the classes' lists |
| Listing.OfType | src/routers/pic-quiz.js:123-124 | exactly the entries carrying the quiz tag are kept |
| Listing.Candidates | src/routers/pic-quiz.js:122-124 | exactly the tagged entries of the user's classes |
| Listing.TakenIds | src/routers/pic-quiz.js:118-120 | one quiz id per completion marker of the user, in order |
| Listing.NotTaken | src/routers/pic-quiz.js:126-141 | exactly the candidates whose quiz has no completion marker |
| Listing.TakenOnly | src/routers/pic-quiz.js:142-157 | exactly the candidates whose quiz has a completion marker |
| Listing.SplitPartitions | src/routers/pic-quiz.js:116-157 | the to-do and finished lists together are a permutation of the candidates, and no quiz is in both |
| Listing.RecordedQuizIsFinished | src/routers/pic-quiz.js:100 | once a submit records the quiz as taken, it is listed as finished and not as to-do |
| Listing.WithStatus | src/routers/pic-quiz.js:134-136 | the list entry reports the given status and keeps every other field |
| QuestionDispatch.DocumentByType | src/routers/logic/pic-quiz-logic.js:5-6 | the fill-in-blank model is chosen exactly for the fill-in-blank tag, the multiple-choice model otherwise; the question lookup at lines 11-14 makes the same choice |
| QuestionDispatch.ModelNameByType | src/routers/logic/pic-quiz-logic.js:8-9 | the stored model name belongs to the same model the tag builds |
| QuestionDispatch.StoredNamesAreValid | src/models/pic-quiz.js:36-47 | every question entry the routers build names a model the schema's enum accepts |
| QuestionDispatch.QuestionOnlyRequiredForMultipleChoice | src/models/fill-in-blank-question.js:5-16 | with `question` left out, a question with an answer passes the fill-in-blank validation and fails the multiple-choice one, the fill-in-blank schema spelling its `required` as `require` |
| QuestionDispatch.DeleteTarget | src/routers/logic/pic-quiz-logic.js:16-19 | the delete reaches the fill-in-blank collection exactly for the stored model name `FillInBlankQuestion` |
| QuestionDispatch.StoredNameMatchesBuiltDocument | src/routers/logic/pic-quiz-logic.js:5-9 | the model name stored for a question leads the delete to the collection the question was saved in |
| QuestionDispatch.DeleteByStoredNameMatchesFind | src/routers/logic/pic-quiz-logic.js:11-19 | deleting by the stored name and finding by the tag reach the same collection |
| QuestionDispatch.DeleteByShortTagMisses | src/routers/logic/pic-quiz-logic.js:16-19 | given the short fill-in-blank tag, the delete goes to the multiple-choice collection |
| QuestionItems.InfoView | src/models/pic-quiz.js:66-71 | a question's view drops the image bytes, has an image URL exactly when it has an image, always has its update URL, and keeps every other field |
| QuestionItems.ItemView | src/models/pic-quiz.js:66-71 | a populated question entry shows its question's view; an unpopulated entry is left as it is |
| QuestionItems.ItemsOf | src/models/quiz.js:48-53 | one view per question entry, in order |
| QuestionItems.ItemsView | src/models/quiz.js:48-53 | the loop builds the same views as `ItemsOf` |
| ClassModel.NewClass | src/models/class.js:4-27 | a new class holds every declared field as given and no undeclared one, and an empty roster when none is given |
| ClassModel.RouterTagsOutsideClassEnum | src/models/class.js:16-26 | the routers' tags `PicQuizz` and `Scribbly` fail the class enum but pass the user enum; `Quiz` passes both |
| PicQuizModel.NewPicQuiz | src/models/pic-quiz.js:3-57 | a new picture quiz holds every declared field as given and no undeclared one, with type `PicQuizz` and no classes when none are given |
| PicQuizModel.QuizView | src/models/pic-quiz.js:61-76 | the serialised quiz drops the big image bytes, always shows the big image's URL, shows every question entry's view, and keeps its other fields |
| PicQuizModel.ToJSON | src/models/pic-quiz.js:61-76 | the loop over the questions builds `QuizView` |
| QuizModel.NewQuiz | src/models/quiz.js:3-41 | a new quiz holds every declared field as given and no undeclared one, with type `Quiz` when none is given |
| QuizModel.QuizView | src/models/quiz.js:44-56 | the serialised quiz shows every question entry's view and keeps its other fields |
| QuizModel.ToJSON | src/models/quiz.js:44-56 | the loop over the questions builds `QuizView` |
| GuessPicModel.NewGuessPic | src/models/guess-pic.js:4-50 | a new guess-picture quiz holds every declared field as given and no undeclared one, with type `Guess Pic Game` when none is given |
| GuessPicModel.ToJSON | src/models/guess-pic.js:52-60 | the serialised quiz gains the picture URL, loses the picture bytes, and keeps every other field |
| PicQuizWorkModel.NewWork | src/models/pic-quiz-studentwork.js:3-16 | a new work keeps only the schema's paths from the data, with score -1 when none is given |
| QuizWorkModel.NewWork | src/models/quiz-studentwork.js:3-20 | a new work keeps only the schema's paths from the data, with score -1 and try count 1 when none is given |
| ScribblyModel.NewScribbly | src/models/scribbly.js:3-33 | a new drawing quiz holds every declared field as given and no undeclared one, with type `Scribbly` and kind `individual` when none are given |
| ScribblyModel.WithReactURLs | src/models/scribbly.js:47-49 | a work gains the three reaction URLs for its id and keeps every other field |
| ScribblyModel.WorkView | src/models/scribbly.js:39-50 | a serialised work has reaction counts in place of reaction lists, an image URL exactly when it has an image, no image bytes, and its reaction URLs |
| ScribblyModel.QuizView | src/models/scribbly.js:35-53 | the serialised quiz shows every populated work's view, in order, and keeps its other fields |
| ScribblyModel.ToJSON | src/models/scribbly.js:35-53 | the loop over the works builds `QuizView` |
| ScribblyWorkModel.NewWork | src/models/scribbly-studentwork.js:3-40 | a new drawing work holds every declared field as given and no undeclared one, and otherwise starts at task 0, status `free`, score -1, try count 1 and empty reaction lists |
| ScribblyWorkModel.NewGroupWorkIncomplete | src/models/scribbly-studentwork.js:5-12 | a fresh work for a group of two or more is not complete |
| UserModel.NewUser | src/models/user.js:7-110 | a new user holds every declared field as given and no undeclared one, with account type `student`, no stars and no taken quizzes when none are given |
| UserModel.ToJSON | src/models/user.js:113-127 | the serialised user loses password, sessions, avatar and cover bytes, gains a URL for each stored image, and keeps every other field |
| UserModel.ImageURLIffImage | src/models/user.js:113-127 | the serialised user has an avatar URL and a cover URL exactly when that image is stored |
| UserModel.GenerateAuthToken | src/models/user.js:130-140 | exactly one session holding the new token is added at the end, and nothing else changes |
| UserModel.FindByCredentials | src/models/user.js:142-152 | fails when no user has the account; when one has it, fails only if the password does not match the user found; a user returned has that account and a matching password |
| UserModel.PreSave | src/models/user.js:155-163 | the password is hashed exactly when it was modified; every other field is kept |
| UserModel.SaveKeepsUnchangedPassword | src/models/user.js:155-163 | saving a user whose password was not modified leaves the stored hash as it was |
| UserLogic.RemoveCurrentToken | src/routers/logic/user-logic.js:1-3 | no session with the token remains, every other session stays in order, and the list shrinks by the number of matching sessions |
| UserLogic.RemoveDistributes | src/routers/logic/user-logic.js:1-3 | filtering a joined list is joining the filtered parts |
| UserLogic.RemoveSingle | src/routers/logic/user-logic.js:1-3 | a single session is dropped exactly when it holds the token |
| UserLogic.RemoveIdempotent | src/routers/logic/user-logic.js:1-3 | ending the same session twice is ending it once |
| UserRouter.AllowedBodyAvoidsProtected | src/routers/user.js:158-159 | an accepted patch names no identity, role, password, session or class field |
| UserRouter.Logout | src/routers/user.js:39-51 | the sessions holding the current token end, the others stay in order, and nothing else changes |
| UserRouter.LogoutAll | src/routers/user.js:55-64 | every session of the user ends and nothing else changes |
| UserRouter.PatchMe | src/routers/user.js:157-173 | refused, changing nothing, exactly when the body names a field off the allow-list; otherwise the declared fields named change, protected fields cannot, and an undeclared allowed key such as `takenTasks` is dropped |
| UserRouter.TakenTasksIsDropped | src/routers/user.js:158-168 | `takenTasks` passes the allow-list, but the user schema does not declare it, so patching it leaves the user as it was |
| ClassRouter.QuizByType | src/routers/class.js:11-18 | a quiz is resolved exactly for the picture-quiz tag and an existing picture quiz |
| ClassRouter.ValidTagResolvesNothing | src/routers/class.js:11-18 | no tag the class schema accepts is one the lookup resolves |
| ClassRouter.AddStudent | src/routers/class.js:34-51 | 404 with nothing changed exactly when the class or the account is missing; otherwise the class ends the student's class list and the student ends the class's roster |
| ClassRouter.CountAppend | src/routers/class.js:42-43 | appending a reference adds exactly one occurrence of it |
| ClassRouter.EnrolAgainDuplicates | src/routers/class.js:42-43 | enrolling a student twice lists the class twice and the student twice |
| Json.WithoutAppend | src/routers/class.js:55-73 | removing a reference just appended restores the list without it |
| ClassRouter.StrFilter | src/routers/class.js:63-64 | the filter keeps the entries whose `str` field differs from the target's |
| ClassRouter.StrFilterEmptiesIdLists | src/routers/class.js:63-64 | on a list of ids the `.str` comparison removes everything |
| ClassRouter.RemoveFromOneOfTwoClasses | src/routers/class.js:63-64 | a student of classes 1 and 2 removed from class 1 loses both; by id equality only class 1 goes |
| ClassRouter.RemoveStudent | src/routers/class.js:55-73 | 404 with nothing changed exactly when the class or the account is missing; otherwise the class leaves the student's list and the student leaves the roster, everything else kept (by id; the source's `.str` filter is `ClassRouter.RemoveFromOneOfTwoClasses`) |
| ClassRouter.WithoutRef | src/routers/class.js:60-64 | no reference to the id remains in the list (a class's roster, a user's classes); every other entry and every other field is kept |
| ClassRouter.RemoveUndoesAdd | src/routers/class.js:34-73 | removing a student right after enrolling them gives the lists they would have without the enrolment |
| ClassRouter.WithoutRefIdempotent | src/routers/class.js:55-73 | removing twice is removing once |
| ClassRouter.PatchClass | src/routers/class.js:112-125 | refused exactly for a non-admin or a body naming `classId`; for an admin with no matching class the assignment throws; a patch that leaves the class without `classId` or with a quiz-list type outside the enum fails with nothing changed; otherwise the class takes the body's declared fields and keeps its `classId` |
| ClassRouter.DropClassFromStudents | src/routers/class.js:138-143 | every student on the roster loses the class, every other user is unchanged, and no user is added or removed |
| ClassRouter.ValidQuizListTouchesNoQuiz | src/routers/class.js:145-150 | a quiz list the class schema accepted leads the delete to no picture quiz |
| ClassRouter.WithoutClassId | src/routers/class.js:145-150 | the class id leaves the quiz's class list; every other entry and field is kept |
| ClassRouter.WithoutClassIdIdempotent | src/routers/class.js:145-150 | dropping the class id twice is dropping it once |
| ClassRouter.DropClassFromPicQuizzes | src/routers/class.js:145-150 | every picture quiz the class's quiz list resolves loses the class id; every other quiz is unchanged |
| ClassRouter.DeleteClass | src/routers/class.js:131-155 | refused for a non-admin, 404 with nothing changed when no class matches; otherwise the class is removed and the cascades over its students and quizzes applied (by id; the source's `.str` filter is `ClassRouter.StrFilterEmptiesIdLists`) |
| QuizCommon.PriorTries | src/routers/pic-quiz.js:86-87 | the count is unknown exactly when some referenced work that exists has an author that is not a user (the filter throws on it); otherwise it never exceeds the references |
| QuizCommon.PriorTriesSkipsDangling | src/routers/pic-quiz.js:86-87 | a reference to a missing work drops out when populated and leaves the count unchanged |
| QuizCommon.PriorTriesIgnoresUnreferenced | src/routers/pic-quiz.js:86-87 | storing a work the quiz does not reference leaves the try count unchanged |
| QuizCommon.NextTryNumber | src/routers/pic-quiz.js:86-99 | once the submitter's new work is attached, their try count goes up by exactly one |
| QuizCommon.QuestionEntry | src/routers/pic-quiz.js:55-58 | the entry points at the question and names the model the question was saved in |
| QuizCommon.BuiltQuestion | src/routers/logic/pic-quiz-logic.js:5-6 | a new question holds the data's fields its schema declares and no undeclared one |
| QuizCommon.SaveQuestion | src/routers/pic-quiz.js:40-45 | the save fails, storing nothing, exactly when the built question lacks a required field; otherwise it is stored under a fresh id in its model's collection and the other collection is untouched |
| QuizCommon.RemoveQuestion | src/routers/pic-quiz.js:50-53 | exactly that question leaves its model's collection; the other collection is untouched |
| QuizCommon.UpdateQuestion | src/routers/pic-quiz.js:286-288 | saved exactly when the question with the new declared fields keeps its required fields, and then it takes them; otherwise nothing changes; the other collection is untouched |
| QuizCommon.PatchListedQuestion | src/routers/pic-quiz.js:279-290 | refused exactly when the quiz's entries do not refer to the question; otherwise saved exactly when the patched question passes its validation, and nothing changes when it is not saved |
| QuizCommon.StrSomeIsNonEmpty | src/routers/pic-quiz.js:279-280 | the `.str` membership test passes for any question as soon as the quiz has a question |
| QuizCommon.ForeignQuestionPasses | src/routers/pic-quiz.js:279-283 | a question of another quiz passes the `.str` test though it is not in this quiz |
| QuizCommon.QuestionIdsSpec | src/routers/pic-quiz.js:311-315 | a question is deleted from a collection exactly when an entry references it and names that collection's model |
| QuizCommon.AddedQuestionIsDeleted | src/routers/pic-quiz.js:38-67 | a question added by the new-question route is deleted with its quiz |
| QuizCommon.DeleteQuestions | src/routers/pic-quiz.js:311-315 | both collections lose exactly the questions the quiz's entries name |
| QuizCommon.DropQuiz | src/routers/pic-quiz.js:320-322 | an entry survives exactly when it is not about the deleted quiz |
| QuizCommon.DropQuizIdempotent | src/routers/pic-quiz.js:320-322 | dropping the quiz twice is dropping it once |
| QuizCommon.DropQuizUndoesInject | src/routers/logic/logic.js:17-23 | dropping a quiz just added to a class leaves the list as if it had not been added |
| QuizCommon.StrDropQuiz | src/routers/pic-quiz.js:320-322 | the `.str` filter never grows the list |
| QuizCommon.StrDropQuizEmpties | src/routers/pic-quiz.js:320-322 | on entries holding ids the `.str` filter removes everything |
| QuizCommon.DeleteLosesOtherQuizzes | src/routers/pic-quiz.js:320-322 | deleting quiz 1 from a class listing quizzes 1 and 2 loses both; by id equality quiz 2 stays |
| QuizCommon.WithoutQuiz | src/routers/pic-quiz.js:319-323 | the class's quiz list loses the deleted quiz; every other field is kept |
| QuizCommon.WithoutQuizIdempotent | src/routers/pic-quiz.js:319-323 | cleaning a class twice is cleaning it once |
| QuizCommon.CleanedKeepsIds | src/routers/pic-quiz.js:318-323 | cleaning classes never changes a class id |
| QuizCommon.DropQuizFromClasses | src/routers/pic-quiz.js:318-323 | for every class id of the quiz one class is looked up (none when none matches), and exactly the classes found lose the quiz |
| QuizCommon.AllSerialisableFails | src/routers/pic-quiz.js:126-157 | one quiz that cannot be serialised makes the whole list fail |
| QuizCommon.SerialisableIffResolved | src/routers/pic-quiz.js:131-138 | a quiz can be serialised exactly when every question entry resolves to a stored question |
| PicQuizRouter.NewQuestion | src/routers/pic-quiz.js:38-67 | refused for a non-admin; a question missing a required field fails before the quiz is looked up; 404 with nothing changed exactly when the quiz is then missing; otherwise the question is stored in the collection its type selects and an entry for it ends the quiz's question list |
| PicQuizRouter.AddQuestion | src/routers/pic-quiz.js:40-59 | fails with nothing changed exactly when the question lacks a required field; 404 with nothing left behind exactly when no quiz has the id; otherwise the saved question sits under a fresh id and the found quiz gains exactly one entry for it |
| PicQuizRouter.LinkQuestion | src/routers/pic-quiz.js:48-59 | 404 exactly when no quiz has the id, the saved question then removed again; otherwise the found quiz gains exactly one entry for the question |
| PicQuizRouter.SubmitTo | src/routers/pic-quiz.js:86-100 | refused, changing nothing, exactly when the prior tries reach the attempt limit; otherwise a new work with the next try number is stored and attached, and the submitter gets a completion marker when the quiz type allows |
| PicQuizRouter.StoreWork | src/routers/pic-quiz.js:93-97 | the submitted work, with the submitter as author and the try number, is stored under an id no other work has |
| PicQuizRouter.StoreAttempt | src/routers/pic-quiz.js:93-100 | the new work is stored and attached to the quiz; the submitter is recorded as having taken the quiz exactly when the quiz type allows, and the user collection is untouched otherwise |
| PicQuizRouter.Submit | src/routers/pic-quiz.js:71-109 | 404 exactly when no quiz matches; a 404 or a refusal changes nothing; a success stores and attaches the work and records the quiz |
| PicQuizRouter.ListEntryShows | src/routers/pic-quiz.js:132-138 | a listed quiz reports its status and an image URL in place of the image bytes |
| PicQuizRouter.Entries | src/routers/pic-quiz.js:130-141 | the list is built exactly when every chosen quiz can be serialised, with one entry per quiz in order |
| PicQuizRouter.GetList | src/routers/pic-quiz.js:116-162 | the chosen list (to-do or finished) is serialised entry by entry, and fails exactly when one quiz cannot be |
| PicQuizRouter.Patch | src/routers/pic-quiz.js:236-259 | refused for a non-admin or a body naming `quizId`; 404 exactly when no quiz matches; a failure only when the patched quiz misses a required field or has an invalid question entry, with nothing changed; otherwise the quiz takes the body's declared fields and the new image, keeps its `quizId` and passes validation |
| PicQuizRouter.PatchQuestion | src/routers/pic-quiz.js:263-294 | 404 exactly when the quiz or the question is missing; refused when the question is not one of the quiz's; a patch leaving out a required field fails with nothing changed; otherwise only that question changes |
| PicQuizRouter.RemoveQuiz | src/routers/pic-quiz.js:303-315 | the quiz found is removed along with every question it lists; nothing changes when none is found |
| PicQuizRouter.DeleteAsWritten | src/routers/pic-quiz.js:301-331 | never succeeds: after the quiz and every question it lists are removed from both question collections, reading the undefined `quiz.class` makes it fail |
| PicQuizRouter.Delete | src/routers/pic-quiz.js:301-331 | refused for a non-admin; 404 with nothing changed when no quiz matches; otherwise the quiz and its questions are removed and every class listing it loses its entry |
| QuizRouter.NewQuestion | src/routers/quiz.js:32-64 | refused for a non-admin; a question missing a required field fails before the quiz is looked up; 404 with nothing changed exactly when the quiz is then missing; otherwise the question is stored and an entry for it ends the quiz's question list |
| QuizRouter.AddQuestion | src/routers/quiz.js:34-56 | fails with nothing changed exactly when the question lacks a required field; 404 with nothing left behind exactly when no quiz has the id; otherwise the saved question sits under a fresh id and the found quiz gains exactly one entry for it |
| QuizRouter.LinkQuestion | src/routers/quiz.js:42-56 | 404 exactly when no quiz has the id, the saved question then removed again; otherwise the found quiz gains exactly one entry for the question |
| QuizRouter.SubmitTo | src/routers/quiz.js:87-102 | refused, changing nothing, exactly when the prior tries reach the attempt limit; otherwise a new work with the next try number is stored and attached, and the quiz is recorded |
| QuizRouter.StoreWork | src/routers/quiz.js:94-98 | the submitted work, with the submitter as author and the try number, is stored under an id no other work has |
| QuizRouter.StoreAttempt | src/routers/quiz.js:94-102 | the new work is stored and attached to the quiz; the submitter is recorded as having taken the quiz exactly when the quiz type allows, and the user collection is untouched otherwise |
| QuizRouter.Submit | src/routers/quiz.js:68-111 | 404 exactly when no quiz matches; a 404 or a refusal changes nothing; a success stores and attaches the work and records the quiz |
| QuizRouter.ListEntryShows | src/routers/quiz.js:131-153 | a listed quiz reports its status |
| QuizRouter.Entries | src/routers/quiz.js:131-155 | the list is built exactly when every chosen quiz can be serialised, one entry per quiz in order |
| QuizRouter.GetList | src/routers/quiz.js:118-165 | the chosen list is serialised entry by entry, and fails exactly when one quiz cannot be |
| QuizRouter.Patch | src/routers/quiz.js:197-218 | refused for a non-admin or a body naming `quizId`; 404 exactly when no quiz matches; a failure only when the patched quiz misses a required field or has an invalid question entry, with nothing changed; otherwise the quiz takes the body's declared fields, keeps its `quizId` and passes validation |
| QuizRouter.PatchQuestion | src/routers/quiz.js:222-253 | 404 exactly when the quiz or the question is missing; refused when the question is not one of the quiz's; a patch leaving out a required field fails with nothing changed; otherwise only that question changes |
| QuizRouter.RemoveQuiz | src/routers/quiz.js:262-274 | the quiz found is removed along with every question it lists; nothing changes when none is found |
| QuizRouter.DeleteAsWritten | src/routers/quiz.js:260-290 | never succeeds: after the quiz and every question it lists are removed from both question collections, `quiz.class.forEach` throws because `class` is one string |
| QuizRouter.ClassIds | src/models/quiz.js:24 | the quiz's one class id, as a list of at most one element, empty when it has none |
| QuizRouter.Delete | src/routers/quiz.js:260-290 | refused for a non-admin; 404 with nothing changed when no quiz matches; otherwise the quiz and its questions are removed and its class loses its entry |
| ScribblyLogic.FindGroupWorkByUserId | src/routers/logic/scribbly-logic.js:1-3 | the first work with an author of that id, and none exactly when no work has one |
| ScribblyLogic.FindGroupWorkByUserAccount | src/routers/logic/scribbly-logic.js:5-7 | the first work with an author of that account, and none exactly when no work has one |
| ScribblyLogic.FindByIdSameAuthors | src/routers/logic/scribbly-logic.js:9-14 | the lookup depends only on the works' authors, so it agrees on any rewriting that keeps them |
| ScribblyLogic.FindByAccountSameAccounts | src/routers/logic/scribbly-logic.js:5-7 | the lookup depends only on the authors' accounts |
| ScribblyLogic.GroupLookupSurvivesToJSON | src/routers/logic/scribbly-logic.js:21-24 | serialising a quiz does not change which work the group lookup finds |
| ScribblyLogic.NeedToDoViewFails | src/routers/logic/scribbly-logic.js:23-28 | the builder throws exactly for a group quiz in which the user has no work |
| ScribblyLogic.NeedToDoViewGroup | src/routers/logic/scribbly-logic.js:23-28 | a group quiz reports the user's work's status as taken-ness, and its image URL when it has one |
| ScribblyLogic.NeedToDoViewKeeps | src/routers/logic/scribbly-logic.js:29-30 | every entry is `to-do`, without works, and keeps every other field |
| ScribblyLogic.SerialiseAll | src/routers/logic/scribbly-logic.js:21 | one serialised quiz per quiz, in order |
| ScribblyLogic.BuildNeedToDo | src/routers/logic/scribbly-logic.js:20-33 | the list is built exactly when no group quiz lacks the user's work, each entry being that quiz's need-to-do view |
| ScribblyLogic.WithVotedFlags | src/routers/logic/scribbly-logic.js:41-43 | each voted flag says whether the user is in that reaction's list |
| ScribblyLogic.WithAuthorViews | src/routers/logic/scribbly-logic.js:44-46 | every author gains an avatar URL; nothing else changes |
| ScribblyLogic.FinishedWorkFieldsVoted | src/routers/logic/scribbly-logic.js:41-43 | the voted flags are read from the reaction lists before those become counts |
| ScribblyLogic.FinishedWorkFieldsAuthors | src/routers/logic/scribbly-logic.js:44-46 | the same authors, in order, each with its avatar URL |
| ScribblyLogic.FinishedWorkFieldsOthers | src/routers/logic/scribbly-logic.js:48-57 | apart from the flags and authors, a finished work shows the work's serialised form |
| ScribblyLogic.FinishedWorkKeepsAccounts | src/routers/logic/scribbly-logic.js:44-46 | the rewriting keeps every author's account, so the viewer's work is found the same way |
| ScribblyLogic.FinishedWorkKeepsCompleteness | src/routers/logic/scribbly-logic.js:51-53 | a work is complete after the rewriting exactly when it was before |
| ScribblyLogic.Classmates | src/routers/logic/scribbly-logic.js:63-65 | a work is a classmate's exactly when none of its authors is the viewer and it is complete or the quiz is individual |
| ScribblyLogic.FinishedQuizFromSpec | src/routers/logic/scribbly-logic.js:39-66 | a finished quiz is marked `finished`, lists the classmates' works, has no works list, and keeps every other field |
| ScribblyLogic.FinishedQuizMyWork | src/routers/logic/scribbly-logic.js:61-62 | the viewer's own work is the first work with their account, absent when there is none |
| ScribblyLogic.MyWorkNotClassmate | src/routers/logic/scribbly-logic.js:61-65 | the viewer's own work is never also listed among the classmates' works |
| ScribblyLogic.FinishedWorksLoop | src/routers/logic/scribbly-logic.js:40-60 | the loop over the works rewrites each as a finished work, in order |
| ScribblyLogic.FinishedQuiz | src/routers/logic/scribbly-logic.js:36-67 | the builder's loop body yields the quiz's finished view |
| ScribblyLogic.BuildFinished | src/routers/logic/scribbly-logic.js:35-69 | one finished view per quiz, in order |
| ScribblyRouter.AttachAllAppends | src/routers/scribbly.js:32-37 | attaching the group works appends their references in order |
| ScribblyRouter.AttachAllKeepsOthers | src/routers/scribbly.js:32-37 | attaching works changes no field of the quiz but its works |
| ScribblyRouter.AddGroupWorksSpec | src/routers/scribbly.js:32-37 | one new work per group under a fresh id, authored by that group; every older work kept |
| ScribblyRouter.CreateWork | src/routers/scribbly.js:66-69 | a new drawing work, built from the data by the schema, is stored under an id not used before; no other work changes |
| ScribblyRouter.CreateGroupWork | src/routers/scribbly.js:32-34 | one blank work authored by exactly the group is stored under an id not used before; no other work changes |
| ScribblyRouter.CreateGroupWorks | src/routers/scribbly.js:32-37 | the loop stores one work per group under fresh ids and attaches them all to the quiz |
| ScribblyRouter.Create | src/routers/scribbly.js:15-48 | refused for a non-admin; a body without the required quiz fields, or whose `quizId` is already stored (the unique index), fails with nothing stored; a group quiz whose class is missing answers 404 with the quiz already stored; otherwise the quiz is stored with one work per group of the class's roster |
| ScribblyRouter.CreateScribbly | src/routers/scribbly.js:16 | once the unique index admits its `quizId`, a new drawing quiz, built from the body by the schema, is stored under an id not used before; no other quiz changes, and a `quizId`-unique store stays unique |
| ScribblyRouter.CreateQuiz | src/routers/scribbly.js:16-38 | once the quiz has passed validation and its `quizId` is not yet stored (the create's failures are decided before it), it is stored under a fresh id; a group quiz with a missing class answers 404 with no works; otherwise one work per group of the class roster is created and attached |
| ScribblyRouter.CreateForClass | src/routers/scribbly.js:20-37 | 404 exactly when no class matches, the quiz then stored without works |
| ScribblyRouter.CreatedGroupWorkIncomplete | src/routers/scribbly.js:32-37 | a freshly created work of a group of two or more is not complete |
| ScribblyRouter.GroupWorkOf | src/routers/scribbly.js:71-72 | the work found exists and has the user among its authors |
| ScribblyRouter.PopulatedFindIffGroupWorkOf | src/routers/scribbly.js:55-72 | the lookup on populated works finds a work exactly when the stored works hold one of the user |
| ScribblyRouter.PopulatedFindIsGroupWorkOf | src/routers/scribbly.js:55-72 | the lookup on populated works finds the same work as the lookup on the stored ones |
| ScribblyRouter.Progressed | src/routers/scribbly.js:71-77 | a work with a numeric task counter advances by one, the submission's declared fields over it and undeclared ones dropped; any other counter fails |
| ScribblyRouter.Advance | src/routers/scribbly.js:71-77 | the step computes `Progressed` |
| ScribblyRouter.SubmitIndividual | src/routers/scribbly.js:65-79 | one new work authored by the user is stored and attached to the quiz whatever follows; it succeeds exactly when the quiz type passes the user's `takenQuizzes` enum, and then the user gains one completion marker; on failure no user changes |
| ScribblyRouter.StoreIndividualWork | src/routers/scribbly.js:65-70 | exactly one new work, under an id not used before and holding the body's declared fields with the user as sole author, is stored and appended to the quiz's work list |
| ScribblyRouter.SubmitGroup | src/routers/scribbly.js:71-79 | the user's group work advances as `Progressed` says exactly when it exists with a numeric task counter, and stays advanced whatever follows; otherwise no work changes; it succeeds exactly when the work advanced and the quiz type passes the `takenQuizzes` enum, and then the user gains one completion marker; on failure no user changes |
| ScribblyRouter.SubmitTo | src/routers/scribbly.js:63-79 | the individual or group branch by `scribblyType`, with the stored work, the success condition and the users as in the two branches; a group submit leaves the quizzes alone |
| ScribblyRouter.Submit | src/routers/scribbly.js:53-88 | 404 with nothing changed exactly when no quiz matches; otherwise, for the quiz found, an individual submit always stores and attaches a new work authored by the user and a group submit advances the user's group work when it has one with a numeric counter, either staying stored on failure; success exactly when a work was stored and the quiz type passes the `takenQuizzes` enum, and only then does the user gain a completion marker |
| ScribblyRouter.Toggle | src/routers/scribbly.js:103-108 | a user who had reacted is taken out of the list; one who had not is added at its end |
| ScribblyRouter.ToggleFlips | src/routers/scribbly.js:103-108 | after a toggle the user has reacted exactly when they had not before, and no one else's reaction changes |
| ScribblyRouter.ToggleTwice | src/routers/scribbly.js:103-108 | toggling twice leaves the same reactions, and restores the list exactly when the user had not reacted |
| ScribblyRouter.React | src/routers/scribbly.js:92-119 | succeeds exactly when the work exists and has that reaction list; then only that list is toggled |
| ScribblyRouter.NeedToDoQuizzes | src/routers/scribbly.js:123-137 | one populated quiz per Scribbly quiz of the user's classes not yet taken, in order |
| ScribblyRouter.NeedToDo | src/routers/scribbly.js:123-148 | the need-to-do builder applied to exactly those quizzes |
| ScribblyRouter.FinishedFilter | src/routers/scribbly.js:170-177 | a quiz stays exactly when it is individual or the viewer's group work is complete |
| ScribblyRouter.TakenQuizzes | src/routers/scribbly.js:152-168 | one populated quiz per taken Scribbly quiz of the user's classes, in order |
| ScribblyRouter.Finished | src/routers/scribbly.js:152-188 | the finished builder applied to exactly the taken quizzes that pass the gate |
| ScribblyRouter.IncompleteGroupInNeitherList | src/routers/scribbly.js:123-177 | a taken group quiz without a complete work of the viewer is on neither the to-do nor the finished list |
| ScribblyRouter.Patch | src/routers/scribbly.js:236-260 | refused for a non-admin or a body naming `quizId`; 404 exactly when no quiz matches; a failure only when the patched quiz misses `quizId` or `quizName`, with nothing changed; otherwise the quiz takes the body's declared fields, keeps its `quizId` and passes validation |
| GuessPicRouter.OptionsFrom | src/routers/guess-pic.js:22-28 | four options, read in order from the cursor |
| GuessPicRouter.PickOptions | src/routers/guess-pic.js:24-27 | the loop picks the four options from the cursor on, in order, and moves the cursor by four |
| GuessPicRouter.BuildQuestion | src/routers/guess-pic.js:19-31 | one mini question as the specification builds it, the cursor moving by four exactly for a multiple-choice question |
| GuessPicRouter.MiniQuestionsAt | src/routers/guess-pic.js:18-32 | the i-th mini question is built from the i-th question and the cursor reached by the earlier ones |
| GuessPicRouter.CursorMonotone | src/routers/guess-pic.js:22-28 | the options cursor never goes back |
| GuessPicRouter.OptionWindowsDisjoint | src/routers/guess-pic.js:22-28 | two multiple-choice mini questions never share an option |
| GuessPicRouter.LoopThrowsIff | src/routers/guess-pic.js:18-32 | assembly throws exactly when some mini question is multiple choice and there are no options to read |
| GuessPicRouter.AssembleLoop | src/routers/guess-pic.js:18-32 | the loop throws exactly when the assembly does, and otherwise yields all the mini questions |
| GuessPicRouter.AssembleMiniQuestions | src/routers/guess-pic.js:18-32 | no mini questions are assembled exactly when the question list has no length or the loop throws on an unreadable type, answer or option; otherwise the result is the specified list |
| GuessPicRouter.Create | src/routers/guess-pic.js:9-43 | refused exactly for a non-admin; a missing picture, a throwing assembly, a missing required field or a `quizId` already stored (the unique index) fail and store nothing; otherwise one new quiz is stored, and a `quizId`-unique store stays unique |
| GuessPicRouter.Patch | src/routers/guess-pic.js:60-78 | refused for a non-admin or a body naming `quizId`; a missing quiz fails (no 404); otherwise the quiz takes the body's declared fields if its required fields stay present, and otherwise fails with nothing changed |
| GuessPicRouter.Delete | src/routers/guess-pic.js:81-96 | refused for a non-admin; 404 with nothing changed exactly when no quiz matches; otherwise exactly that quiz is removed |

## Left out

- HTTP plumbing: status codes beyond the four reply kinds, response bodies, authentication middleware (the user id is a parameter), and which refusals answer 400 or 403.
- Image processing with `sharp`, password hashing with bcrypt and token signing with jwt are parameters or opaque values; their outputs are not modelled.
- Schema validation: strict mode (undeclared keys dropped) and the `required` and `enum` validators are modelled on every create, patch and question save named in the model table; the `unique` index on `quizId` is modelled on the drawing and guess-picture creates (the patches refuse a body naming `quizId`); casting, `minlength`, `trim`, `lowercase`, string formats, the email and phone validators and the unique index on a user's `email` are not.
- UserRouter.PatchMe: the user's `save` validation is not modelled, so the patch never fails it; the allow-list excludes every required user field, and only the email and phone validators and the unique index on `email` (a patch to another user's email), none of which is modelled, could reject it.
- AddQuestion (both routers, through `LinkQuestion`): the quiz's own `save` after the push is taken to succeed; the pushed entry always passes the enum (`QuestionDispatch.StoredNamesAreValid`), so that save could fail only for a quiz already stored invalid.
- Logic.InjectQuizToClass, Logic.InjectUserToClass and the other pushes followed by a `save` check only the pushed entry, not the rest of a document already stored.
- ObjectId identity and casting: ids are natural numbers, and a malformed id never throws.
- Floating point: the stars update of the quiz submit (`src/routers/quiz.js:99`) is not modelled.
- Concurrency: fire-and-forget `forEach(async …)` saves are not awaited by the source; the delete contracts state the store once the cascades complete, in order, not the store at the moment of the reply, and concurrent requests are not modelled.
- The `skribly` and `guesspic` legacy files, `src/routers/logic/class-logic.js`, the GET-by-id handlers, the create handlers of classes, quizzes and picture quizzes, and the avatar and upload routes are not part of this model.
- PicQuizModel.NewPicQuiz: the picture quiz's embedded `studentWorks` subdocuments are modelled as references to work documents.
- ScribblyRouter.Progressed: a non-numeric task counter makes the step fail, where the source's `+ 1` gives `NaN` for an absent one, 1 for `null` and a concatenation for a string.
- PicQuizRouter.Patch: when no quiz matches, the source answers 404 and then throws on the missing quiz; the model stops at the 404.
- QuizRouter.Patch: the 404 at `src/routers/quiz.js:207-208` has no `return`, so the handler goes on and throws; the model stops at the 404.
- ClassRouter.DeleteClass: the success path sends no reply in the source; the model returns `Ok`.
- ClassRouter.PatchClass: the catch answers `res.send(400)` whatever the error; the model reports `Fails`.
- GuessPicRouter.Create: a field without a length gives zero loop rounds; the type and answer reads are checked before the loop rather than inside it.
- Logic.InjectParticipantToQuiz: the save at `src/routers/logic/logic.js:37` names an undeclared `classDoc`, so the function always throws; no corrected version is modelled because nothing calls it.
- ScribblyRouter.Create: the quiz stored before a missing class is reported is not rolled back, as in the source.
- ScribblyRouter.Submit: no completion check on group submits and no duplicate check on markers, as in the source.

## Findings

| source | as written | input that shows it | evidently intended | confidence | as-written member | corrected member |
|---|---|---|---|---|---|---|
| src/routers/class.js:63-64 | students and classes are compared by `.str`, which ids do not have, so both sides are `undefined` and every entry is removed | a student in classes 1 and 2 removed from class 1 | remove only the class and the student being unenrolled | not executed; high | ClassRouter.RemoveFromOneOfTwoClasses | ClassRouter.RemoveStudent |
| src/routers/class.js:141 | the class delete filters each student's classes by `.str`, emptying them | deleting class 1 of a student also in class 2 | remove only the deleted class from each student | not executed; high | ClassRouter.StrFilterEmptiesIdLists | ClassRouter.DropClassFromStudents |
| src/routers/pic-quiz.js:321 and src/routers/quiz.js:280 | the quiz delete filters each class's quiz list by `.str`, emptying it | deleting quiz 1 from a class listing quizzes 1 and 2 | remove only the deleted quiz's entry | not executed; high | QuizCommon.DeleteLosesOtherQuizzes | QuizCommon.DropQuizFromClasses |
| src/routers/pic-quiz.js:279-280 and src/routers/quiz.js:238-239 | the question patch checks membership by `.str`, so any question passes once the quiz has one | quiz whose only question is 1, patching question 2 | patch only a question of that quiz | not executed; high | QuizCommon.ForeignQuestionPasses | PicQuizRouter.PatchQuestion |
| src/routers/logic/logic.js:10 | the completion marker is pushed onto `quizzes`, a path the user schema does not have, so the push throws and nothing is saved | any submit | push onto `takenQuizzes`, which the lists read | not executed; medium | Logic.InjectQuizToUserAsWritten, Logic.UsersHaveNoQuizzes | Logic.InjectQuizToUser |
| src/routers/pic-quiz.js:318 | the delete reads `quiz.class`, but a picture quiz stores `classes`, so it iterates `undefined` and throws after the quiz is gone | deleting any existing picture quiz | iterate the quiz's `classes` | not executed; high | PicQuizRouter.DeleteAsWritten | PicQuizRouter.Delete |
| src/routers/quiz.js:277 | the delete calls `forEach` on `quiz.class`, a single string, which throws after the quiz is gone and cleans no class | deleting any existing quiz | clean the one class the quiz names | not executed; medium | QuizRouter.DeleteAsWritten | QuizRouter.Delete |
