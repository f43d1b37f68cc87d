/** The JSON API of app.js: the survey and response handlers over an in-memory
    store that stands for the two MongoDB collections. Each handler returns
    the status code and body it would send. */
module Api {
  import opened Text
  import opened Values
  import opened Entities

  /** Failures raised by the database layer rather than by the handlers. */
  datatype DbFailure =
    | CastToObjectIdFailed    // an id parameter that is not an ObjectId
    | DuplicateShareableLink  // the unique index on `shareableLink` refused an insert

  datatype Body =
    | SurveyBody(survey: SurveyDoc)
    | SurveyList(surveys: seq<SurveyDoc>)
    | ResponseBody(response: ResponseDoc)
    | ResponseList(responses: seq<ResponseDoc>)
    | ErrorBody(error: string)
    | DbErrorBody(failure: DbFailure)

  datatype Reply = Reply(status: int, body: Body)

  const SurveyNotFound := "Survey not found"

  // ---------------------------------------------------------------------------
  // Object ids

  predicate IsHexDigit(c: char) { '0' <= c <= '9' || 'a' <= c <= 'f' || 'A' <= c <= 'F' }

  /** An id parameter that casts to an ObjectId: 24 hex digits of either case. */
  predicate CastsToObjectId(s: string) {
    |s| == 24 && forall i :: 0 <= i < |s| ==> IsHexDigit(s[i])
  }

  /** An ObjectId as the store writes it: 24 lower-case hex digits. */
  predicate IsObjectId(s: string) {
    |s| == 24 && forall i :: 0 <= i < |s| ==> IsLowerHexDigit(s[i])
  }

  function LowerChar(c: char): char {
    if 'A' <= c <= 'F' then (c as int - 'A' as int + 'a' as int) as char else c
  }

  /** The ObjectId an id parameter casts to: the same digits in lower case. */
  function CastObjectId(s: string): (id: string)
    requires CastsToObjectId(s)
    ensures IsObjectId(id)
    ensures forall i :: 0 <= i < |s| ==> id[i] == LowerChar(s[i])
  {
    seq(|s|, i requires 0 <= i < |s| => LowerChar(s[i]))
  }

  /** Casting a stored id gives the id back. */
  lemma CastObjectIdOfObjectId(id: string)
    requires IsObjectId(id)
    ensures CastsToObjectId(id) && CastObjectId(id) == id
  {
  }

  // ---------------------------------------------------------------------------
  // Queries of the store

  /** `SurveyModel.findById`: the first stored survey with this id. */
  function FindById(surveys: seq<SurveyDoc>, id: string): (r: Option<SurveyDoc>)
    ensures r.Some? ==> r.value in surveys && r.value.id == id
    ensures r.None? <==> forall i :: 0 <= i < |surveys| ==> surveys[i].id != id
  {
    if |surveys| == 0 then None
    else if surveys[0].id == id then Some(surveys[0])
    else FindById(surveys[1..], id)
  }

  /** `SurveyModel.findOne({ shareableLink: link })`: the first stored survey with this link. */
  function FindByLink(surveys: seq<SurveyDoc>, link: string): (r: Option<SurveyDoc>)
    ensures r.Some? ==> r.value in surveys && LinkOf(r.value) == link
    ensures r.None? <==> forall i :: 0 <= i < |surveys| ==> LinkOf(surveys[i]) != link
  {
    if |surveys| == 0 then None
    else if LinkOf(surveys[0]) == link then Some(surveys[0])
    else FindByLink(surveys[1..], link)
  }

  /** `ResponseModel.find({ surveyId })`: the responses to one survey, in store order. */
  function ResponsesFor(responses: seq<ResponseDoc>, surveyId: string): (r: seq<ResponseDoc>)
    ensures |r| <= |responses|
    ensures forall d :: d in r <==> d in responses && d.surveyId == surveyId
  {
    if |responses| == 0 then []
    else
      var last := responses[|responses| - 1];
      ResponsesFor(responses[..|responses| - 1], surveyId) + (if last.surveyId == surveyId then [last] else [])
  }

  /** Filtering keeps store order: the responses of a longer store extend those of a shorter one. */
  lemma {:induction false} ResponsesForAppend(a: seq<ResponseDoc>, b: seq<ResponseDoc>, surveyId: string)
    ensures ResponsesFor(a + b, surveyId) == ResponsesFor(a, surveyId) + ResponsesFor(b, surveyId)
    decreases |b|
  {
    if |b| > 0 {
      var b' := b[..|b| - 1];
      assert (a + b)[..|a + b| - 1] == a + b';
      ResponsesForAppend(a, b', surveyId);
    } else {
      assert a + b == a;
    }
  }

  /** In a store with distinct ids, looking up the id of a stored survey finds that survey. */
  lemma {:induction false} FindByIdOfMember(surveys: seq<SurveyDoc>, k: nat)
    requires k < |surveys|
    requires forall i, j :: 0 <= i < j < |surveys| ==> surveys[i].id != surveys[j].id
    ensures FindById(surveys, surveys[k].id) == Some(surveys[k])
  {
    if k > 0 {
      FindByIdOfMember(surveys[1..], k - 1);
    }
  }

  /** In a store with distinct links, looking up the link of a stored survey finds that survey. */
  lemma {:induction false} FindByLinkOfMember(surveys: seq<SurveyDoc>, k: nat)
    requires k < |surveys|
    requires forall i, j :: 0 <= i < j < |surveys| ==> LinkOf(surveys[i]) != LinkOf(surveys[j])
    ensures FindByLink(surveys, LinkOf(surveys[k])) == Some(surveys[k])
  {
    if k > 0 {
      FindByLinkOfMember(surveys[1..], k - 1);
    }
  }

  /** Appending a survey leaves the lookup of every other id as it was. */
  lemma {:induction false} FindByIdAppend(surveys: seq<SurveyDoc>, d: SurveyDoc, id: string)
    ensures FindById(surveys + [d], id) == if FindById(surveys, id).Some? then FindById(surveys, id)
                                           else if d.id == id then Some(d) else None
  {
    if |surveys| > 0 {
      assert (surveys + [d])[1..] == surveys[1..] + [d];
      FindByIdAppend(surveys[1..], d, id);
    }
  }

  /** Appending a survey leaves the lookup of every other link as it was. */
  lemma {:induction false} FindByLinkAppend(surveys: seq<SurveyDoc>, d: SurveyDoc, link: string)
    ensures FindByLink(surveys + [d], link) == if FindByLink(surveys, link).Some? then FindByLink(surveys, link)
                                               else if LinkOf(d) == link then Some(d) else None
  {
    if |surveys| > 0 {
      assert (surveys + [d])[1..] == surveys[1..] + [d];
      FindByLinkAppend(surveys[1..], d, link);
    }
  }

  // ---------------------------------------------------------------------------
  // Validation of a survey payload (POST /api/surveys)

  /** The Error the per-question check throws for the question at `index`
      (counted from 0; messages count from 1), or None when it passes. The
      text is checked first, then the type, then, unless the type is exactly
      "text", that `options` is an array. A `null` question throws the
      TypeError of reading a property of `null`. */
  function QuestionFault(question: Value, index: nat): (r: Option<string>)
    ensures r.None? <==>
      && !Nullish(question)
      && Truthy(Get(question, "questionText"))
      && Truthy(Get(question, "questionType"))
      && (Get(question, "questionType") == Str("text") || IsArray(Get(question, "options")))
    ensures Nullish(question) ==> r == Some(ReadError(question, "questionText"))
    ensures !Nullish(question) && !Truthy(Get(question, "questionText")) ==>
      r == Some("Question " + NatToString(index + 1) + " is missing text")
    ensures !Nullish(question) && Truthy(Get(question, "questionText")) && !Truthy(Get(question, "questionType")) ==>
      r == Some("Question " + NatToString(index + 1) + " is missing type")
    ensures && !Nullish(question) && Truthy(Get(question, "questionText")) && Truthy(Get(question, "questionType"))
            && Get(question, "questionType") != Str("text") && !IsArray(Get(question, "options")) ==>
      r == Some("Question " + NatToString(index + 1) + " of type " + JsString(Get(question, "questionType"))
                + " is missing options array")
  {
    var number := NatToString(index + 1);
    var questionType := Get(question, "questionType");
    var options := Get(question, "options");
    if Nullish(question) then Some(ReadError(question, "questionText"))
    else if !Truthy(Get(question, "questionText")) then Some("Question " + number + " is missing text")
    else if !Truthy(questionType) then Some("Question " + number + " is missing type")
    else if questionType != Str("text") && (!Truthy(options) || !IsArray(options)) then
      Some("Question " + number + " of type " + JsString(questionType) + " is missing options array")
    else None
  }

  predicate QuestionsPass(questions: seq<Value>) {
    forall j :: 0 <= j < |questions| ==> QuestionFault(questions[j], j).None?
  }

  /** The first question that fails, with the message it fails with. */
  datatype Fault = Fault(index: nat, message: string)

  /** The `forEach` over the questions, which throws on the first question that fails. */
  method CheckQuestions(questions: seq<Value>) returns (fault: Option<Fault>)
    ensures fault.None? <==> QuestionsPass(questions)
    ensures fault.Some? ==>
      && fault.value.index < |questions|
      && QuestionFault(questions[fault.value.index], fault.value.index) == Some(fault.value.message)
      && forall j :: 0 <= j < fault.value.index ==> QuestionFault(questions[j], j).None?
  {
    var i := 0;
    while i < |questions|
      invariant 0 <= i <= |questions|
      invariant forall j :: 0 <= j < i ==> QuestionFault(questions[j], j).None?
    {
      var message := QuestionFault(questions[i], i);
      if message.Some? {
        return Some(Fault(i, message.value));
      }
      i := i + 1;
    }
    return None;
  }

  /** A payload that passes every check of the creation handler. */
  predicate PayloadAccepted(body: map<string, Value>) {
    && Truthy(Get(Obj(body), "title"))
    && IsArray(Get(Obj(body), "questions"))
    && QuestionsPass(Get(Obj(body), "questions").items)
  }

  /** The handler's checks imply `Survey.validate`, so the second validation
      inside `save()` never throws. */
  lemma AcceptedPayloadValidates(body: map<string, Value>, now: int, random: seq<byte>)
    requires |random| == LinkBytes
    requires Truthy(Get(Obj(body), "title")) && IsArray(Get(Obj(body), "questions"))
    ensures var fields := SurveyFields(body, now, random);
      Truthy(Get(Obj(fields), "title")) && IsArray(Get(Obj(fields), "questions"))
  {
    var fields := SurveyFields(body, now, random);
    assert "title" in body && fields["title"] == body["title"];
    assert "questions" in body && fields["questions"] == body["questions"];
  }

  // ---------------------------------------------------------------------------
  // The store and the handlers

  /** The two collections: surveys and responses, each in insertion order. */
  class Store {
    var surveys: seq<SurveyDoc>
    var responses: seq<ResponseDoc>

    /** Ids and links are well formed and unique (the unique index on
        `shareableLink`), and every response refers to a stored survey. */
    ghost predicate Valid()
      reads this
    {
      && (forall i :: 0 <= i < |surveys| ==> IsObjectId(surveys[i].id) && IsShareableLink(LinkOf(surveys[i])))
      && (forall i, j :: 0 <= i < j < |surveys| ==> surveys[i].id != surveys[j].id)
      && (forall i, j :: 0 <= i < j < |surveys| ==> LinkOf(surveys[i]) != LinkOf(surveys[j]))
      && RespondToStored(surveys, responses)
    }

    constructor ()
      ensures Valid() && surveys == [] && responses == []
    {
      surveys, responses := [], [];
    }

    /** `survey.save()` after validation: the insert the unique index on
        `shareableLink` refuses when the link is already stored. */
    method InsertSurvey(record: map<string, Value>, newId: string) returns (reply: Reply)
      requires Valid()
      requires IsObjectId(newId) && FindById(surveys, newId).None?
      requires "shareableLink" in record && record["shareableLink"].Str?
      requires IsShareableLink(record["shareableLink"].s)
      modifies this
      ensures Valid() && responses == old(responses)
      ensures FindByLink(old(surveys), record["shareableLink"].s).Some? ==>
        reply == Reply(500, DbErrorBody(DuplicateShareableLink)) && surveys == old(surveys)
      ensures FindByLink(old(surveys), record["shareableLink"].s).None? ==>
        reply == Reply(200, SurveyBody(SurveyDoc(newId, record))) && surveys == old(surveys) + [SurveyDoc(newId, record)]
    {
      var doc := SurveyDoc(newId, record);
      if FindByLink(surveys, LinkOf(doc)).Some? {
        return Reply(500, DbErrorBody(DuplicateShareableLink));
      }
      StoredResponsesAfterInsert(surveys, responses, doc);
      surveys := surveys + [doc];
      reply := Reply(200, SurveyBody(doc));
    }

    /** POST /api/surveys. The title is checked first (400), then that
        `questions` is an array (400); a failing question is reported as 500;
        otherwise the survey is built with a fresh link and inserted. */
    method CreateSurvey(body: map<string, Value>, now: int, random: seq<byte>, newId: string) returns (reply: Reply)
      requires Valid()
      requires |random| == LinkBytes
      requires IsObjectId(newId) && FindById(surveys, newId).None?
      modifies this
      ensures Valid() && responses == old(responses)
      ensures reply.status != 200 ==> surveys == old(surveys)
      ensures !Truthy(Get(Obj(body), "title")) ==> reply == Reply(400, ErrorBody(TitleRequired))
      ensures Truthy(Get(Obj(body), "title")) && !IsArray(Get(Obj(body), "questions")) ==>
        reply == Reply(400, ErrorBody(QuestionsMustBeArray))
      ensures Truthy(Get(Obj(body), "title")) && IsArray(Get(Obj(body), "questions")) && !PayloadAccepted(body) ==>
        var questions := Get(Obj(body), "questions").items;
        reply.status == 500 && reply.body.ErrorBody? &&
        exists i :: 0 <= i < |questions| && QuestionFault(questions[i], i) == Some(reply.body.error)
                    && forall j :: 0 <= j < i ==> QuestionFault(questions[j], j).None?
      ensures PayloadAccepted(body) && FindByLink(old(surveys), GenerateShareableLink(random)).Some? ==>
        reply == Reply(500, DbErrorBody(DuplicateShareableLink)) && surveys == old(surveys)
      ensures reply.status == 200 <==>
        PayloadAccepted(body) && FindByLink(old(surveys), GenerateShareableLink(random)).None?
      ensures reply.status == 200 ==>
        var doc := SurveyDoc(newId, SurveyFields(body, now, random));
        reply.body == SurveyBody(doc) && surveys == old(surveys) + [doc]
    {
      var title := Get(Obj(body), "title");
      if !Truthy(title) {
        return Reply(400, ErrorBody(TitleRequired));
      }
      var questions := Get(Obj(body), "questions");
      if !Truthy(questions) || !IsArray(questions) {
        return Reply(400, ErrorBody(QuestionsMustBeArray));
      }
      var fault := CheckQuestions(questions.items);
      if fault.Some? {
        return Reply(500, ErrorBody(fault.value.message));
      }
      var survey := new Survey(body, now, random);
      AcceptedPayloadValidates(body, now, random);
      assert survey.Validate() == Pass;
      reply := InsertSurvey(survey.fields, newId);
    }

    /** GET /api/surveys: every stored survey, in store order. */
    method ListSurveys() returns (reply: Reply)
      ensures reply == Reply(200, SurveyList(surveys))
    {
      reply := Reply(200, SurveyList(surveys));
    }

    /** GET /api/surveys/:id. An id that is not an ObjectId is a cast error
        (500); an unknown one is 404; otherwise the stored survey, unchanged. */
    method GetSurveyById(id: string) returns (reply: Reply)
      ensures !CastsToObjectId(id) ==> reply == Reply(500, DbErrorBody(CastToObjectIdFailed))
      ensures CastsToObjectId(id) && FindById(surveys, CastObjectId(id)).None? ==>
        reply == Reply(404, ErrorBody(SurveyNotFound))
      ensures reply.status == 200 <==> CastsToObjectId(id) && FindById(surveys, CastObjectId(id)).Some?
      ensures reply.status == 200 ==>
        reply.body.SurveyBody? && reply.body.survey in surveys && reply.body.survey.id == CastObjectId(id)
    {
      if !CastsToObjectId(id) {
        return Reply(500, DbErrorBody(CastToObjectIdFailed));
      }
      var survey := FindById(surveys, CastObjectId(id));
      if survey.None? {
        return Reply(404, ErrorBody(SurveyNotFound));
      }
      reply := Reply(200, SurveyBody(survey.value));
    }

    /** GET /api/surveys/link/:link: 404 for an unknown link, otherwise the stored survey, unchanged. */
    method GetSurveyByLink(link: string) returns (reply: Reply)
      ensures FindByLink(surveys, link).None? <==> reply == Reply(404, ErrorBody(SurveyNotFound))
      ensures reply.status == 200 <==> FindByLink(surveys, link).Some?
      ensures reply.status == 200 ==>
        reply.body.SurveyBody? && reply.body.survey in surveys && LinkOf(reply.body.survey) == link
    {
      var survey := FindByLink(surveys, link);
      if survey.None? {
        return Reply(404, ErrorBody(SurveyNotFound));
      }
      reply := Reply(200, SurveyBody(survey.value));
    }

    /** POST /api/surveys/:surveyId/responses. An id that is not an ObjectId is
        a cast error (500) and an unknown survey is 404; then the response is
        validated (500 when `responses` is missing) and exactly one response
        is stored (201). Nothing is stored on any failure. */
    method SubmitResponse(surveyId: string, body: map<string, Value>, now: int, newId: string) returns (reply: Reply)
      requires Valid()
      modifies this
      ensures Valid() && surveys == old(surveys)
      ensures reply.status != 201 ==> responses == old(responses)
      ensures !CastsToObjectId(surveyId) ==> reply == Reply(500, DbErrorBody(CastToObjectIdFailed))
      ensures CastsToObjectId(surveyId) && FindById(surveys, CastObjectId(surveyId)).None? ==>
        reply == Reply(404, ErrorBody(SurveyNotFound))
      ensures (CastsToObjectId(surveyId) && FindById(surveys, CastObjectId(surveyId)).Some?
               && !Truthy(Get(Obj(body), "responses"))) ==> reply == Reply(500, ErrorBody(ResponsesRequired))
      ensures reply.status == 201 <==>
        CastsToObjectId(surveyId) && FindById(surveys, CastObjectId(surveyId)).Some? && Truthy(Get(Obj(body), "responses"))
      ensures reply.status == 201 ==>
        var doc := ResponseDoc(newId, CastObjectId(surveyId), Get(Obj(body), "responses"), now);
        reply.body == ResponseBody(doc) && responses == old(responses) + [doc]
    {
      var answers := Get(Obj(body), "responses");
      if !CastsToObjectId(surveyId) {
        return Reply(500, DbErrorBody(CastToObjectIdFailed));
      }
      var survey := FindById(surveys, CastObjectId(surveyId));
      if survey.None? {
        return Reply(404, ErrorBody(SurveyNotFound));
      }
      var response := new SurveyResponse(Str(surveyId), answers, now);
      assert |surveyId| == 24;
      var check := response.Validate();
      if check.Fail? {
        return Reply(500, ErrorBody(check.message));
      }
      var doc := ResponseDoc(newId, CastObjectId(surveyId), answers, now);
      StoredResponsesAppend(surveys, responses, doc);
      responses := responses + [doc];
      reply := Reply(201, ResponseBody(doc));
    }

    /** GET /api/surveys/:surveyId/responses: the responses to that survey in
        store order, or a cast error (500) for an id that is not an ObjectId. */
    method ListResponses(surveyId: string) returns (reply: Reply)
      ensures !CastsToObjectId(surveyId) ==> reply == Reply(500, DbErrorBody(CastToObjectIdFailed))
      ensures CastsToObjectId(surveyId) ==> reply.status == 200 && reply.body.ResponseList?
      ensures reply.status == 200 ==> reply.body.responses == ResponsesFor(responses, CastObjectId(surveyId))
      ensures reply.status == 200 ==>
        forall d :: d in reply.body.responses <==> d in responses && d.surveyId == CastObjectId(surveyId)
    {
      if !CastsToObjectId(surveyId) {
        return Reply(500, DbErrorBody(CastToObjectIdFailed));
      }
      reply := Reply(200, ResponseList(ResponsesFor(responses, CastObjectId(surveyId))));
    }
  }

  /** Every stored response refers to a stored survey: `SubmitResponse`
      checks the survey exists before it stores a response to it. */
  ghost predicate RespondToStored(surveys: seq<SurveyDoc>, responses: seq<ResponseDoc>) {
    forall i :: 0 <= i < |responses| ==> FindById(surveys, responses[i].surveyId).Some?
  }

  lemma StoredResponsesAppend(surveys: seq<SurveyDoc>, responses: seq<ResponseDoc>, doc: ResponseDoc)
    requires RespondToStored(surveys, responses) && FindById(surveys, doc.surveyId).Some?
    ensures RespondToStored(surveys, responses + [doc])
  {
    assert forall i :: 0 <= i < |responses| ==> (responses + [doc])[i] == responses[i];
  }

  /** POST /api/surveys followed by GET /api/surveys: a created survey is
      listed after every survey stored before it, and a refused one is not. */
  method CreatedSurveyIsListed(store: Store, body: map<string, Value>, now: int, random: seq<byte>, newId: string)
    returns (created: Reply, listed: Reply)
    requires store.Valid() && |random| == LinkBytes
    requires IsObjectId(newId) && FindById(store.surveys, newId).None?
    modifies store
    ensures listed.status == 200 && listed.body.SurveyList?
    ensures created.status == 200 ==>
      created.body.SurveyBody? && listed.body.surveys == old(store.surveys) + [created.body.survey]
    ensures created.status != 200 ==> listed.body.surveys == old(store.surveys)
  {
    created := store.CreateSurvey(body, now, random, newId);
    listed := store.ListSurveys();
  }

  /** Storing a survey keeps every stored response referring to a stored survey. */
  lemma StoredResponsesAfterInsert(surveys: seq<SurveyDoc>, responses: seq<ResponseDoc>, doc: SurveyDoc)
    requires RespondToStored(surveys, responses)
    ensures RespondToStored(surveys + [doc], responses)
  {
    forall i | 0 <= i < |responses| ensures FindById(surveys + [doc], responses[i].surveyId).Some? {
      FindByIdAppend(surveys, doc, responses[i].surveyId);
    }
  }

  /** A created survey is found again by its id and by its link, unchanged. */
  lemma CreatedSurveyIsFound(surveys: seq<SurveyDoc>, doc: SurveyDoc)
    requires forall i :: 0 <= i < |surveys| ==> surveys[i].id != doc.id && LinkOf(surveys[i]) != LinkOf(doc)
    ensures FindById(surveys + [doc], doc.id) == Some(doc)
    ensures FindByLink(surveys + [doc], LinkOf(doc)) == Some(doc)
  {
    FindByIdAppend(surveys, doc, doc.id);
    FindByLinkAppend(surveys, doc, LinkOf(doc));
  }

  /** A survey fetched by its link can take a response: its id casts back to
      itself and the survey is found under it, so the respondent page's
      submission to `survey._id` is never a 404. */
  lemma FoundByLinkIsFoundById(surveys: seq<SurveyDoc>, link: string)
    requires forall i :: 0 <= i < |surveys| ==> IsObjectId(surveys[i].id)
    requires forall i, j :: 0 <= i < j < |surveys| ==> surveys[i].id != surveys[j].id
    requires FindByLink(surveys, link).Some?
    ensures var d := FindByLink(surveys, link).value;
      CastsToObjectId(d.id) && FindById(surveys, CastObjectId(d.id)) == Some(d)
  {
    var d := FindByLink(surveys, link).value;
    var k :| 0 <= k < |surveys| && surveys[k] == d;
    CastObjectIdOfObjectId(d.id);
    FindByIdOfMember(surveys, k);
  }
}
