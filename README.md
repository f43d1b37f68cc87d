# DataFormers survey tool — a Dafny model

DataFormers is a small survey application. An author builds a survey (title,
description, questions of type text or multiple choice) on the authoring page
and posts it to a JSON API. The server validates it, stamps it with a random
12-hex-digit shareable link and stores it. A respondent opens the survey by
id or by link, fills in the rendered form, and the page folds the form's
entries into a `responses` object keyed by question index. The server stores
that object against the survey. A third page lists the responses of a chosen
survey and matches each answer to its question.

This project models all four parts:

- `app.js`: the entity classes, the handlers and the route table.
- `public/script.js`: the authoring page.
- `public/survey.js`: the respondent page.
- `public/responses.js`: the responses page.

It proves the properties the code promises about validation order, status
codes, the store, option parsing, the response fold and the display of answers.

Files (one module each):

| file | module | models |
|---|---|---|
| `text.dfy` | `Text` | `String(n)`, `split`, `join`, `trim`, `replace` with a one-character pattern |
| `values.dfy` | `Values` | JSON values with JavaScript truthiness, property reads and `String(v)` |
| `entities.dfy` | `Entities` | `generateShareableLink`, `Model`, `Survey`, `SurveyResponse` (app.js:74-171) |
| `api.dfy` | `Api` | the handlers over a `Store` class that stands for the two collections (app.js:174-285) |
| `routes.dfy` | `Routes` | which handler a method and path reach (app.js:174-285) |
| `authoring.dfy` | `Authoring` | public/script.js: the question blocks, option parsing, the posted payload |
| `respondent.dfy` | `Respondent` | public/survey.js: endpoint choice, input rendering, the response fold, the submit URL |
| `display.dfy` | `Display` | public/responses.js: answer formatting, matching answers to questions, the cards |

State that the source changes in place is modelled imperatively:

- The store is the class `Api.Store`, whose handlers are methods over its two sequences.
- The authoring page is the class `Authoring.AuthoringPage`, with its question counter and its blocks.
- `new Survey(...)` and `new SurveyResponse(...)` are classes with a `fields` map.

The loops of the source are methods with loop invariants, each proved against
a specification function:

- the per-question `forEach` of the create handler;
- the form rendering, the `for...of` response fold, the question collection;
- the two rendering loops of the responses page.

Three behaviours of the handlers are easy to misread, and the model keeps them as written:

- A question that fails the per-question checks answers 500, not 400: the handler throws inside its `try` (app.js:189-200) and the `catch` answers 500 (app.js:209-217).
- An id that is not an ObjectId fails Mongoose's cast, so the lookups by id answer 500, not 404 (app.js:230-241, 256-285).
- The responses page lists the answers of each response; it computes no per-option tallies or percentages.

`routes.dfy` is not part of the application logic. It models Express's matching of an exact method and path, so that the pages' URLs can be connected to the handlers (`Respondent.EndpointRoute`, `Respondent.SubmitUrlRoute`, `Display.SelectRequestsRoute`). These lemmas hold for identifiers that are `Routes.IsSegment`: non-empty, not "." or "..", and free of '/', '\\', '?', '#', tab and line breaks. A browser requests such a path unchanged; other identifiers are rewritten by the browser's URL parsing before any request is made, which the model does not follow.

## Model

| member | source | states |
|---|---|---|
| `Text.NatToString` | public/survey.js:33 | `String(n)` of a non-negative integer is a canonical decimal numeral, starting with '0' only for 0 |
| `Text.ParseNatToString` | public/survey.js:77 | reading back the numeral of `n` gives `n` |
| `Text.NatToStringOfParse` | public/responses.js:70 | a canonical numeral is the numeral of the number it reads as, so an index key names exactly one index |
| `Text.NatToStringInjective` | public/survey.js:33 | distinct question indices give distinct input names |
| `Text.Split` | public/script.js:55 | `split('\n')` gives at least one piece and no piece holds the separator |
| `Text.JoinSplit` | public/script.js:55 | joining the pieces of a split with the separator restores the text |
| `Text.SplitJoin` | public/script.js:55 | splitting lines joined with the separator gives the lines back |
| `Text.SplitNoSeparator` | public/script.js:55 | text without a line break is one line |
| `Text.SplitAtSeparator` | public/script.js:55 | a line break splits the text into the lines on either side of it |
| `Text.TrimStart` | public/script.js:55 | `trimStart` removes a whitespace prefix and leaves a suffix starting with a non-whitespace character |
| `Text.TrimEnd` | public/script.js:55 | `trimEnd` removes a whitespace suffix and leaves a prefix ending with a non-whitespace character |
| `Text.TrimEmptyIffBlank` | public/script.js:55 | `trim()` is empty exactly when every character is ECMAScript whitespace |
| `Text.RemoveFirst` | public/survey.js:77 | `replace('q', '')` leaves the string alone when it has no 'q' and otherwise removes exactly one character |
| `Text.RemoveFirstRemovesFirst` | public/survey.js:77 | the character `replace('q', '')` removes is the first 'q': the result is the text before it, which holds no 'q', followed by the text after it |
| `Entities.Hex` | app.js:75 | `toString('hex')` gives two lower-case hex digits per byte |
| `Entities.DecodeHexInvertsHex` | app.js:75 | the hex text of bytes decodes back to the same bytes |
| `Entities.HexInvertsDecodeHex` | app.js:75 | text that decodes to bytes is the hex text of those bytes |
| `Entities.GenerateShareableLink` | app.js:74-76 | the link is 12 lower-case hex digits that decode to the 6 random bytes, so distinct bytes give distinct links |
| `Entities.DecodeHexOfDigits` | app.js:75 | an even number of lower-case hex digits decodes to half as many bytes |
| `Entities.ShareableLinkDecodes` | app.js:74-76 | every 12-hex-digit link is the link of exactly the 6 bytes it decodes to |
| `Entities.ModelFields` | app.js:107-111 | a new object holds every payload field unchanged plus `createdAt`, which is the timestamp only when the payload has none |
| `Entities.SurveyFields` | app.js:123-127 | a new survey holds the payload's fields, a `createdAt`, and a freshly generated `shareableLink` that replaces any in the payload |
| `Entities.Survey.constructor` | app.js:124-127 | `new Survey(data)` leaves exactly the fields of `SurveyFields` |
| `Entities.Survey.Validate` | app.js:129-135 | passes iff the title is truthy and `questions` is an array; a falsy title fails with "Survey title is required" whatever the questions are; a truthy title with non-array questions fails with "Questions must be an array" |
| `Entities.SurveyResponse.constructor` | app.js:152-155 | `new SurveyResponse(id, responses)` holds the two given fields and `createdAt` |
| `Entities.SurveyResponse.Validate` | app.js:157-161 | a missing survey id fails with "Survey ID is required" before responses are looked at; passes iff both are truthy |
| `Api.CastObjectId` | app.js:232 | an id of 24 hex digits casts to a stored-form ObjectId with the same digits in lower case |
| `Api.CastObjectIdOfObjectId` | app.js:232 | casting a stored id gives the id back |
| `Api.FindById` | app.js:143-145 | the result is a stored survey with that id, and there is none exactly when no stored survey has it |
| `Api.FindByLink` | app.js:147-149 | the result is a stored survey with that link, and there is none exactly when no stored survey has it |
| `Api.ResponsesFor` | app.js:169-171 | the responses of a survey are exactly the stored responses with that survey id |
| `Api.ResponsesForAppend` | app.js:279 | the filter keeps store order: the responses of a longer store extend those of a shorter one |
| `Api.FindByIdOfMember` | app.js:143-145 | with unique ids, the id of a stored survey finds that survey |
| `Api.FindByLinkOfMember` | app.js:147-149 | with unique links, the link of a stored survey finds that survey |
| `Api.FindByIdAppend` | app.js:143-145 | storing a survey leaves the lookup of every other id unchanged |
| `Api.FindByLinkAppend` | app.js:147-149 | storing a survey leaves the lookup of a link already stored unchanged, and otherwise finds the new survey iff it has that link |
| `Api.QuestionFault` | app.js:189-200 | a question passes iff it has truthy text and type and, unless its type is exactly "text", an options array; the checks run in the order text, type, options: a `null` question throws the TypeError of reading `questionText`, missing text gives "Question {i+1} is missing text", then a missing type "Question {i+1} is missing type", then a missing options array "Question {i+1} of type {type} is missing options array" |
| `Api.CheckQuestions` | app.js:189-200 | finds no fault iff every question passes; otherwise reports the first failing question with its message |
| `Api.AcceptedPayloadValidates` | app.js:179-186 | a payload past the handler's title and questions checks also passes `Survey.validate` inside `save()` |
| `Api.Store.constructor` | app.js:94-105 | the collections start empty and satisfy the store invariant |
| `Api.Store.InsertSurvey` | app.js:86-90 | the unique index refuses a link already stored (500, nothing stored); otherwise exactly the new survey is appended; the store invariant holds |
| `Api.Store.CreateSurvey` | app.js:174-218 | 400 "Survey title is required" for a falsy title before anything else; then 400 for non-array questions; then 500 with the first failing question's message; 500 with the duplicate-key error when the generated link is already stored; 200 iff the payload is accepted and the link is new, appending exactly the built survey; nothing stored otherwise |
| `Api.Store.ListSurveys` | app.js:220-228 | 200 with every stored survey, in store order, and the store unchanged; `Api.CreatedSurveyIsListed` connects it to creation |
| `Api.CreatedSurveyIsListed` | app.js:174-228 | after a successful POST /api/surveys, GET /api/surveys lists exactly the surveys stored before, followed by the created one; after a refused one, exactly the surveys stored before |
| `Api.Store.GetSurveyById` | app.js:230-241 | 500 for an id that does not cast, 404 for an unknown one, otherwise 200 with the stored survey of that id, unchanged |
| `Api.Store.GetSurveyByLink` | app.js:243-254 | 404 iff no survey has the link, otherwise 200 with the stored survey of that link, unchanged |
| `Api.Store.SubmitResponse` | app.js:256-274 | 500 for an id that does not cast, 404 for an unknown survey, 500 "Responses are required" for missing responses; 201 iff the survey exists and responses are truthy, appending exactly one response; nothing stored on any failure |
| `Api.StoredResponsesAfterInsert` | app.js:86-90 | storing a survey keeps every stored response referring to a stored survey |
| `Api.StoredResponsesAppend` | app.js:262-271 | a response is stored only after its survey was found, so every stored response refers to a stored survey |
| `Api.Store.ListResponses` | app.js:276-285 | 500 for an id that does not cast; otherwise 200 with exactly the responses of that survey, in store order |
| `Api.CreatedSurveyIsFound` | app.js:230-254 | a survey stored with a fresh id and link is found again by both, unchanged |
| `Api.FoundByLinkIsFoundById` | public/survey.js:69 | a survey fetched by link has an `_id` that casts back to itself and finds the same survey, so submitting to it is never a 404 |
| `Routes.Route` | app.js:174-285 | a match is a POST exactly when it reaches creation or submission; every captured id or link is a non-empty, slash-free segment |
| `Routes.LeadingSegment` | app.js:230 | a slash-free leading segment splits off as the first segment of the path |
| `Routes.SurveysPathSegments` | app.js:230 | a path below `/api/surveys/` splits into the three fixed segments and those of the rest |
| `Routes.TwoSegments` | app.js:256 | two slash-free segments joined by '/' split into those two |
| `Routes.RouteOfSurveyPath` | app.js:230 | `GET /api/surveys/{id}` reaches the lookup by id with that id |
| `Routes.RouteOfLinkPath` | app.js:243 | `GET /api/surveys/link/{link}` reaches the lookup by link with that link |
| `Routes.RouteOfResponsesPath` | app.js:256-285 | `/api/surveys/{id}/responses` reaches submission on POST and listing on GET, except that the earlier link route captures the id "link" |
| `Authoring.Filled` | public/script.js:55 | the filter's `opt.trim()` is truthy exactly when the line is not blank |
| `Authoring.KeepNonBlank` | public/script.js:55 | the filter keeps no more lines than it is given |
| `Authoring.KeepNonBlankAppend` | public/script.js:55 | filtering distributes over concatenation, so kept lines keep their order |
| `Authoring.KeepNonBlankMembers` | public/script.js:55 | a string is kept iff it is one of the lines and is not blank |
| `Authoring.KeepNonBlankOfNonBlank` | public/script.js:55 | lines that are all non-blank are all kept |
| `Authoring.ParseOptions` | public/script.js:55 | a block without a textarea gives no options |
| `Authoring.ParseOptionsWellFormed` | public/script.js:55 | no option holds a line break and every option holds a non-whitespace character |
| `Authoring.EmptyTextareaHasNoOptions` | public/script.js:55 | an empty textarea gives no options |
| `Authoring.ParseOptionsAtLineBreak` | public/script.js:55 | the options of text around a line break are those of the part before followed by those of the part after |
| `Authoring.ParseOptionsMembers` | public/script.js:55 | a string is an option iff it is a line of the textarea, untrimmed, and not blank |
| `Authoring.ParseOptionsOfLines` | public/script.js:55 | writing non-blank options one per line and parsing gives them back |
| `Authoring.Mapped` | public/script.js:52-62 | pushing one element per block in a `forEach` gives as many elements as blocks, the i-th made from the i-th block |
| `Authoring.QuestionsOf` | public/script.js:52-62 | one record per block, in document order, the i-th the record of the i-th block |
| `Authoring.QuestionRecord` | public/script.js:53-61 | the pushed record holds the block's text and type unchanged and the parsed options as an array of strings |
| `Authoring.QuestionRecordPasses` | public/script.js:52-62 | an authored question passes the server's per-question checks iff its text is not empty |
| `Authoring.AuthoredPayloadAccepted` | public/script.js:64-77 | the server accepts the authored payload iff the title and every question text are non-empty; a multiple-choice question without options is accepted |
| `Authoring.NewBlock` | public/script.js:7-25 | a new block is labelled with the next question number, starts as type "text" with its options hidden and an empty options textarea |
| `Authoring.AuthoringPage.constructor` | public/script.js:1 | the page starts with no questions and a zero counter |
| `Authoring.AuthoringPage.AddQuestion` | public/script.js:3-28 | the counter grows by exactly one and exactly one new block, labelled with the next number, is appended; the page invariant holds |
| `Authoring.AuthoringPage.SelectQuestionType` | public/script.js:30-33 | the chosen type is set and the options container shows iff it is "multiple"; nothing else changes |
| `Authoring.AuthoringPage.EditQuestionText` | public/script.js:10 | typing changes only that block's text |
| `Authoring.AuthoringPage.EditOptions` | public/script.js:22 | typing changes only that block's options text |
| `Authoring.AuthoringPage.CollectQuestions` | public/script.js:52-62 | the collected records are exactly those of `QuestionsOf` for the page's blocks, so one per block, in document order, each with the block's text, type and parsed options |
| `Authoring.AuthoringPage.BuildPayload` | public/script.js:45-68 | the posted body is the title, description and the collected questions |
| `Authoring.AuthoringPage.OnCreateResponse` | public/script.js:79-88 | success empties the blocks and resets the counter to 0; failure changes nothing |
| `Respondent.Endpoint` | public/survey.js:6-14 | no endpoint iff neither id nor link is given; the id wins over the link; the id gives `/api/surveys/{id}`, the link `/api/surveys/link/{link}`; `Respondent.EndpointRoute` shows which handler each reaches |
| `Respondent.EndpointRoute` | public/survey.js:13-16 | the chosen endpoint reaches the server's lookup by id, or by link, with that parameter |
| `Respondent.InputName` | public/survey.js:33 | the name of question i's inputs is 'q' followed by the canonical numeral of i, which reads back as i |
| `Respondent.RenderInputs` | public/survey.js:31-56 | every input of question i is named "q"+i; text gives one text box, single one radio per option, multiple one checkbox per option, any other type none; a null question or non-array options throws |
| `Respondent.RenderForm` | public/survey.js:26-63 | one block per question in order, each with its heading and inputs, stopping at the first question that throws |
| `Respondent.QuestionKey` | public/survey.js:77 | `name.replace('q', '')` leaves a name without 'q' unchanged and drops a leading 'q'; `Text.RemoveFirstRemovesFirst` gives the general case and `Respondent.QuestionKeyOfInputName` inverts `InputName` with it |
| `Respondent.QuestionKeyOfInputName` | public/survey.js:77 | the key of input name "q"+i is the decimal numeral of i |
| `Respondent.KeysInOrder` | public/survey.js:76-86 | the keys of the fold are distinct |
| `Respondent.KeysInOrderMembers` | public/survey.js:76-86 | a key is collected iff some entry maps to it |
| `Respondent.ValuesFor` | public/survey.js:76-86 | a key holds no more values than there are entries |
| `Respondent.ValuesForAbsentKey` | public/survey.js:76-86 | a key no entry maps to holds no values |
| `Respondent.CountValuesAppendKey` | public/survey.js:76-86 | counting one more key adds that key's values |
| `Respondent.CountValuesAppendEntry` | public/survey.js:76-86 | one more entry adds one to the count of the keys holding its key |
| `Respondent.CountValuesOfAllKeys` | public/survey.js:76-86 | the groups of all keys together hold exactly as many values as there are entries |
| `Respondent.StoredCountOfGroups` | public/survey.js:76-86 | the arrays of the `responses` object hold as many values as the groups they store |
| `Respondent.ValuesForSnoc` | public/survey.js:82 | one more entry appends its value to its own key's group and leaves the others |
| `Respondent.CollectStep` | public/survey.js:78-85 | one iteration of the fold keeps every key mapped to the array of its values |
| `Respondent.CollectionCollects` | public/survey.js:76-86 | the object the fold builds maps exactly the entries' keys, each to the array of that key's values in entry order |
| `Respondent.CollectedMeans` | public/survey.js:76-86 | such an object holds only arrays, and as many values in all as there were entries |
| `Respondent.CollectResponses` | public/survey.js:76-86 | after the fold, the keys are exactly those of the entries; each maps to an array, never a bare value, holding its values in entry order; the arrays hold exactly as many values as there were entries |
| `Respondent.SubmitUrl` | public/survey.js:69-91 | the submit URL names the `id` parameter when given and otherwise the `_id` of the loaded survey; `Respondent.SubmitUrlRoute` shows it reaches submission |
| `Respondent.SubmitUrlRoute` | public/survey.js:91 | the submit URL reaches the server's submission handler for that survey |
| `Display.FormatAnswer` | public/responses.js:74 | a string answer is shown unchanged and an empty array as empty text; `Display.FormatAnswerOfStrings` and `Display.FormatAnswerRoundTrip` give the array case |
| `Display.ArrayJoinOfStrings` | public/responses.js:74 | joining string values is joining the strings |
| `Display.FormatAnswerOfStrings` | public/responses.js:74 | an array answer is shown as its elements joined with ", ", and a string answer unchanged |
| `Display.SingletonShownAsScalar` | public/responses.js:74 | a one-element array is shown exactly like the bare string |
| `Display.SplitAnswer` | public/responses.js:74 | reading a shown answer back gives at least one part |
| `Display.SplitAnswerNoComma` | public/responses.js:74 | text without a comma reads back as one part |
| `Display.SplitAnswerAtSeparator` | public/responses.js:74 | a ", " after comma-free text separates it from the rest |
| `Display.SplitAnswerOfJoin` | public/responses.js:74 | comma-free strings joined with ", " read back as those strings |
| `Display.FormatAnswerRoundTrip` | public/responses.js:74 | the display of a non-empty array of comma-free strings determines the array |
| `Display.QuestionAt` | public/responses.js:70 | an array finds something only under a canonical index key below its length |
| `Display.QuestionAtIndex` | public/responses.js:70 | the key of index i finds question i |
| `Display.QuestionAtFound` | public/responses.js:70 | a key that finds something in an array is the numeral of one of its indices |
| `Display.AnswerFor` | public/responses.js:70-76 | an entry gives an answer iff its key finds a truthy question, and the answer's text is the formatted answer |
| `Display.ShownAnswers` | public/responses.js:69-77 | a card shows at most one answer per entry |
| `Display.ShownAnswersCount` | public/responses.js:70-71 | a card shows exactly as many answers as there are entries whose key finds a question; the others are skipped silently |
| `Display.ShownAnswersAppend` | public/responses.js:69-77 | answers appear in entry order |
| `Display.ShownAnswersAllMatched` | public/responses.js:69-77 | when every key finds a question, every entry is shown, in order |
| `Display.SubmittedAnswersShown` | public/responses.js:69-74 | every key the respondent page collects finds its question, and its answer reads as its values joined with ", " |
| `Display.RenderAnswers` | public/responses.js:69-77 | the loop shows exactly the matched answers, or throws on the first entry when the questions are null or undefined |
| `Display.RenderCards` | public/responses.js:62-80 | card i+1 for the response at index i, one card per response, or the error of the first response whose entries throw |
| `Display.OnSelect` | public/responses.js:28-86 | an empty selection shows the prompt and fetches nothing; the survey and then its responses are fetched; zero responses show only "No responses yet"; otherwise the title, a total equal to the number of responses and cards numbered from 1 |
| `Display.SelectRequestsRoute` | public/responses.js:38-46 | the two requests reach the lookup by id and the response listing of the selected survey |

## Left out

- I/O is not modelled: the DOM, `innerHTML` templating, `fetch`, `alert`, the clipboard, navigation, `console`, sessions, and the Express middleware and auth routes (app.js:1-72, 287-297). Fetch outcomes are parameters of the page methods.
- `Date.now`/`new Date()`, `crypto.randomBytes` and the `_id` Mongoose generates when it builds the document (app.js:139, 165) become parameters. Timestamps are integers, not `Date` objects. That the new id is fresh is a precondition of `Api.Store.CreateSurvey`.
- Api.Store.CreateSurvey: does not model a payload `_id`. `Object.assign` copies it onto the survey (app.js:110) and `new SurveyModel(this)` keeps it (app.js:139), so the source answers 500 for an `_id` already stored or one that does not cast, and stores the survey under that `_id` otherwise. The model always stores the survey under the id Mongoose generates.
- Mongoose's schema casting is not modelled, except the ObjectId cast of id parameters. The model omits casting of `questions`, `options` and the `responses` Map, strict-mode dropping of unknown keys, and the 12-byte-string form of ObjectId. A stored record holds the payload's fields as posted.
- JavaScript property lookup through the prototype is not modelled. This covers keys such as `length`, `constructor` and `__proto__`, and payload keys `validate`/`save` that would shadow the methods.
- Numbers are integers. NaN, fractions and `toLocaleString` are not modelled.
- `Object.entries` ordering is not derived. The responses page takes each response's entries as a sequence, in the order the object yields them. It also assumes each response's `responses` field is an object and the list endpoint returns an array, as the server sends.
- HTML escaping, or its absence, is not modelled. Neither is the `label` text of options on the respondent page.
- Several functions of the pages are not modelled: `takeSurvey`, `copyShareableLink` and `loadSurveys` in public/script.js, the survey dropdown and its "No surveys available" case in public/responses.js, and public/surveys.js. Each only renders or navigates.
- FormData file values and the order in which a browser lists form entries are not modelled. The entries are a parameter.
- Browser URL resolution is not modelled: an identifier holding '/', '\\', '?', '#', a tab or a line break, or one that is "." or "..", is rewritten before the request is sent, and percent-decoding is not modelled. `Respondent.EndpointRoute`, `Respondent.SubmitUrlRoute` and `Display.SelectRequestsRoute` hold only for identifiers that satisfy `Routes.IsSegment`.
- Api.Store.CreateSurvey: the 500 body of the creation handler also carries `details: error.stack` and `receivedData: req.body` (app.js:212-216); the model's error body keeps only `error`.
- Respondent.RenderForm: takes the questions as a sequence, so it assumes `survey.questions` is an array; in the source `survey.questions.forEach` throws when it is not (public/survey.js:26).
- Express matches routes case-insensitively, accepts a trailing slash and percent-decodes parameters; `Routes.Route` models only exact lower-case paths.
- Per-option tallies and percentages are not modelled, because no core file computes them.
- Respondent.RenderForm: reports that a question threw, but not the TypeError's message.
