/** The responses page (public/responses.js): what it shows for the survey
    picked in the dropdown, from the survey and the list of its responses. */
module Display {
  import opened Text
  import opened Values
  import Respondent
  import Routes

  // ---------------------------------------------------------------------------
  // Formatting one answer

  /** `Array.isArray(answer) ? answer.join(', ') : answer`, as the template
      literal inserts it. */
  function FormatAnswer(answer: Value): (text: string)
    ensures answer.Str? ==> text == answer.s
    ensures answer == Arr([]) ==> text == ""
  {
    if IsArray(answer) then ArrayJoin(answer.items, ", ") else JsString(answer)
  }

  /** Joining string values is joining the strings. */
  lemma ArrayJoinOfStrings(ss: seq<string>, sep: string)
    ensures ArrayJoin(Strs(ss), sep) == Join(ss, sep)
  {
    var items := Strs(ss);
    var shown := seq(|items|, i requires 0 <= i < |items| =>
      if Nullish(items[i]) then "" else JsString(items[i]));
    assert shown == ss;
  }

  /** An array of strings is shown as its elements joined with ", ", and a
      string answer is shown as it is. */
  lemma FormatAnswerOfStrings(ss: seq<string>, s: string)
    ensures FormatAnswer(Arr(Strs(ss))) == Join(ss, ", ")
    ensures FormatAnswer(Str(s)) == s
  {
    ArrayJoinOfStrings(ss, ", ");
  }

  /** A one-element array of a string is shown exactly like the bare string:
      a single checked box reads like a text answer. */
  lemma SingletonShownAsScalar(s: string)
    ensures FormatAnswer(Arr([Str(s)])) == FormatAnswer(Str(s))
  {
    assert Strs([s]) == [Str(s)];
    ArrayJoinOfStrings([s], ", ");
  }

  /** The reading of a displayed answer back into its parts: the text
      between occurrences of ", ". */
  function SplitAnswer(s: string): (parts: seq<string>)
    ensures |parts| > 0
    decreases |s|
  {
    if |s| == 0 then [""]
    else if |s| >= 2 && s[0] == ',' && s[1] == ' ' then [""] + SplitAnswer(s[2..])
    else
      var rest := SplitAnswer(s[1..]);
      [[s[0]] + rest[0]] + rest[1..]
  }

  lemma {:induction false} SplitAnswerNoComma(a: string)
    requires ',' !in a
    ensures SplitAnswer(a) == [a]
    decreases |a|
  {
    if |a| > 0 {
      SplitAnswerNoComma(a[1..]);
      assert [a[0]] + a[1..] == a;
    }
  }

  lemma {:induction false} SplitAnswerAtSeparator(a: string, b: string)
    requires ',' !in a
    ensures SplitAnswer(a + ", " + b) == [a] + SplitAnswer(b)
    decreases |a|
  {
    var s := a + ", " + b;
    if |a| == 0 {
      assert s[0] == ',' && s[1] == ' ' && s[2..] == b;
    } else {
      assert s[0] == a[0] && s[1..] == a[1..] + ", " + b;
      SplitAnswerAtSeparator(a[1..], b);
      assert [a[0]] + a[1..] == a;
    }
  }

  /** Splitting a displayed array answer gives its elements back, when none
      of them holds a comma. */
  lemma {:induction false} SplitAnswerOfJoin(ss: seq<string>)
    requires |ss| > 0
    requires forall i :: 0 <= i < |ss| ==> ',' !in ss[i]
    ensures SplitAnswer(Join(ss, ", ")) == ss
    decreases |ss|
  {
    if |ss| == 1 {
      SplitAnswerNoComma(ss[0]);
    } else {
      SplitAnswerOfJoin(ss[1..]);
      SplitAnswerAtSeparator(ss[0], Join(ss[1..], ", "));
      assert [ss[0]] + ss[1..] == ss;
    }
  }

  /** The display of a non-empty array of comma-free strings determines the array. */
  lemma FormatAnswerRoundTrip(ss: seq<string>)
    requires |ss| > 0
    requires forall i :: 0 <= i < |ss| ==> ',' !in ss[i]
    ensures SplitAnswer(FormatAnswer(Arr(Strs(ss)))) == ss
  {
    FormatAnswerOfStrings(ss, "");
    SplitAnswerOfJoin(ss);
  }

  // ---------------------------------------------------------------------------
  // Matching answers to questions

  /** `questions[key]` on a value that is not `null` or `undefined`: an array
      or a string answers canonical index keys below its length, an object
      its own fields; anything else is `undefined`. */
  function QuestionAt(questions: Value, key: string): (q: Value)
    ensures questions.Arr? && q != Undefined ==>
      IsCanonicalDecimal(key) && ParseDecimal(key) < |questions.items|
  {
    match questions
    case Arr(items) =>
      if IsCanonicalDecimal(key) && ParseDecimal(key) < |items| then items[ParseDecimal(key)] else Undefined
    case Str(s) =>
      if IsCanonicalDecimal(key) && ParseDecimal(key) < |s| then Str([s[ParseDecimal(key)]]) else Undefined
    case Obj(fields) => Get(questions, key)
    case _ => Undefined
  }

  /** The key of the question at index `i` of an array finds that question. */
  lemma QuestionAtIndex(questions: seq<Value>, i: nat)
    requires i < |questions|
    ensures QuestionAt(Arr(questions), NatToString(i)) == questions[i]
  {
    ParseNatToString(i);
  }

  /** A key that finds something in an array is the key of one of its indices. */
  lemma QuestionAtFound(questions: seq<Value>, key: string)
    requires QuestionAt(Arr(questions), key) != Undefined
    ensures exists i :: 0 <= i < |questions| && key == NatToString(i) && QuestionAt(Arr(questions), key) == questions[i]
  {
    NatToStringOfParse(key);
    var i := ParseDecimal(key);
    assert key == NatToString(i);
  }

  /** An answer as a card shows it: the question's text and the formatted answer. */
  datatype Answer = Answer(questionText: string, answerText: string)

  /** An entry `[questionIndex, answer]` of `Object.entries(response.responses)`. */
  type AnswerEntry = (string, Value)

  /** The answer shown for an entry, or `None` when its key does not find a
      truthy question (the `if (question)` test). */
  function AnswerFor(questions: Value, entry: AnswerEntry): (r: Option<Answer>)
    ensures r.Some? <==> Truthy(QuestionAt(questions, entry.0))
    ensures r.Some? ==> r.value.answerText == FormatAnswer(entry.1)
  {
    var question := QuestionAt(questions, entry.0);
    if Truthy(question) then Some(Answer(JsString(Get(question, "questionText")), FormatAnswer(entry.1)))
    else None
  }

  /** The answers a card shows for the entries, in entry order, skipping
      entries whose key does not find a question. */
  function ShownAnswers(questions: Value, entries: seq<AnswerEntry>): (shown: seq<Answer>)
    ensures |shown| <= |entries|
  {
    if |entries| == 0 then []
    else
      var last := AnswerFor(questions, entries[|entries| - 1]);
      ShownAnswers(questions, entries[..|entries| - 1]) + (if last.Some? then [last.value] else [])
  }

  /** The number of entries whose key finds a question. */
  function CountMatched(questions: Value, entries: seq<AnswerEntry>): nat {
    if |entries| == 0 then 0
    else CountMatched(questions, entries[..|entries| - 1])
         + (if Truthy(QuestionAt(questions, entries[|entries| - 1].0)) then 1 else 0)
  }

  /** A card shows one answer per entry that finds a question, and none for
      the others. */
  lemma {:induction false} ShownAnswersCount(questions: Value, entries: seq<AnswerEntry>)
    ensures |ShownAnswers(questions, entries)| == CountMatched(questions, entries)
    decreases |entries|
  {
    if |entries| > 0 {
      ShownAnswersCount(questions, entries[..|entries| - 1]);
    }
  }

  /** The answers of two runs of entries are those of the first followed by
      those of the second. */
  lemma {:induction false} ShownAnswersAppend(questions: Value, a: seq<AnswerEntry>, b: seq<AnswerEntry>)
    ensures ShownAnswers(questions, a + b) == ShownAnswers(questions, a) + ShownAnswers(questions, b)
    decreases |b|
  {
    if |b| == 0 {
      assert a + b == a;
    } else {
      var init := b[..|b| - 1];
      assert (a + b)[..|a + b| - 1] == a + init;
      assert (a + b)[|a + b| - 1] == b[|b| - 1];
      ShownAnswersAppend(questions, a, init);
    }
  }

  /** When every entry finds a question, every entry is shown, in order. */
  lemma {:induction false} ShownAnswersAllMatched(questions: Value, entries: seq<AnswerEntry>)
    requires forall i :: 0 <= i < |entries| ==> Truthy(QuestionAt(questions, entries[i].0))
    ensures |ShownAnswers(questions, entries)| == |entries|
    ensures forall i :: 0 <= i < |entries| ==>
      ShownAnswers(questions, entries)[i] == AnswerFor(questions, entries[i]).value
    decreases |entries|
  {
    if |entries| > 0 {
      var init := entries[..|entries| - 1];
      ShownAnswersAllMatched(questions, init);
    }
  }

  /** The answers the survey page collects are all shown: every key of the
      collected responses finds its question, and its answer reads as the
      values given under it, joined with ", ". */
  lemma SubmittedAnswersShown(questions: seq<Value>, entries: seq<Respondent.Entry>, key: string)
    requires forall i :: 0 <= i < |entries| ==>
      exists j :: 0 <= j < |questions| && Truthy(questions[j]) && entries[i].0 == Respondent.InputName(j)
    requires key in Respondent.KeysInOrder(entries)
    ensures Truthy(QuestionAt(Arr(questions), key))
    ensures FormatAnswer(Arr(Strs(Respondent.ValuesFor(entries, key)))) == Join(Respondent.ValuesFor(entries, key), ", ")
  {
    Respondent.KeysInOrderMembers(entries);
    var i :| 0 <= i < |entries| && Respondent.QuestionKey(entries[i].0) == key;
    var j :| 0 <= j < |questions| && Truthy(questions[j]) && entries[i].0 == Respondent.InputName(j);
    Respondent.QuestionKeyOfInputName(j);
    QuestionAtIndex(questions, j);
    FormatAnswerOfStrings(Respondent.ValuesFor(entries, key), "");
  }

  // ---------------------------------------------------------------------------
  // Rendering

  /** A response card: its number and its answers. */
  datatype Card = Card(number: nat, answers: seq<Answer>)

  /** What the responses container shows. */
  datatype View =
    | SelectPrompt
    | NoResponses
    | Listing(title: string, total: nat, cards: seq<Card>)
    | ErrorView(message: string)

  /** The outcome of a `fetch`: a reply that is not `ok`, or the parsed body. */
  datatype Fetch<T> = Failed | Loaded(body: T)

  /** The `for...of` over one response's answer entries. Reading a question
      from `null` or `undefined` questions throws on the first entry. */
  method RenderAnswers(questions: Value, entries: seq<AnswerEntry>) returns (answers: seq<Answer>, error: Option<string>)
    ensures error.Some? <==> Nullish(questions) && |entries| > 0
    ensures error.Some? ==> error.value == ReadError(questions, entries[0].0)
    ensures error.None? ==> answers == ShownAnswers(questions, entries)
  {
    answers := [];
    var i := 0;
    while i < |entries|
      invariant 0 <= i <= |entries|
      invariant answers == ShownAnswers(questions, entries[..i])
      invariant i > 0 ==> !Nullish(questions)
    {
      var (questionIndex, answer) := entries[i];
      if Nullish(questions) {
        return answers, Some(ReadError(questions, questionIndex));
      }
      var question := QuestionAt(questions, questionIndex);
      assert entries[..i + 1][..i] == entries[..i];
      if Truthy(question) {
        answers := answers + [Answer(JsString(Get(question, "questionText")), FormatAnswer(answer))];
      }
      i := i + 1;
    }
    assert entries[..i] == entries;
    error := None;
  }

  /** The `forEach` over the responses: card `i + 1` for the response at
      index `i`, or the error of the first response whose entries throw. */
  method RenderCards(questions: Value, responses: seq<seq<AnswerEntry>>) returns (cards: seq<Card>, error: Option<string>)
    ensures error.Some? <==> Nullish(questions) && exists i :: 0 <= i < |responses| && |responses[i]| > 0
    ensures error.Some? ==> exists i ::
      && 0 <= i < |responses| && |responses[i]| > 0
      && (forall j :: 0 <= j < i ==> |responses[j]| == 0)
      && error.value == ReadError(questions, responses[i][0].0)
    ensures error.None? ==> |cards| == |responses|
    ensures error.None? ==> forall i :: 0 <= i < |cards| ==> cards[i] == Card(i + 1, ShownAnswers(questions, responses[i]))
  {
    cards := [];
    var i := 0;
    while i < |responses|
      invariant 0 <= i <= |responses|
      invariant |cards| == i
      invariant forall j :: 0 <= j < i ==> cards[j] == Card(j + 1, ShownAnswers(questions, responses[j]))
      invariant Nullish(questions) ==> forall j :: 0 <= j < i ==> |responses[j]| == 0
    {
      var answers, failure := RenderAnswers(questions, responses[i]);
      if failure.Some? {
        return cards, failure;
      }
      cards := cards + [Card(i + 1, answers)];
      i := i + 1;
    }
    error := None;
  }

  /** The dropdown's `change` handler: the requests it makes (their URLs, in
      order) and what it shows. The two fetch outcomes are parameters. */
  method OnSelect(surveyId: string, surveyFetch: Fetch<Value>, responsesFetch: Fetch<seq<seq<AnswerEntry>>>)
    returns (view: View, requests: seq<string>)
    ensures view == SelectPrompt <==> surveyId == ""
    ensures surveyId == "" ==> requests == []
    ensures surveyId != "" && surveyFetch.Failed? ==>
      requests == ["/api/surveys/" + surveyId] && view == ErrorView("Failed to load survey details")
    ensures surveyId != "" && surveyFetch.Loaded? ==>
      requests == ["/api/surveys/" + surveyId, "/api/surveys/" + surveyId + "/responses"]
    ensures surveyId != "" && surveyFetch.Loaded? && responsesFetch.Failed? ==>
      view == ErrorView("Failed to load responses")
    ensures (surveyId != "" && surveyFetch.Loaded? && responsesFetch.Loaded? && |responsesFetch.body| > 0
             && Nullish(surveyFetch.body)) ==> view == ErrorView(ReadError(surveyFetch.body, "title"))
    ensures surveyId != "" && surveyFetch.Loaded? && responsesFetch.Loaded? && |responsesFetch.body| > 0 ==>
      (view.ErrorView? <==>
         || Nullish(surveyFetch.body)
         || (Nullish(Get(surveyFetch.body, "questions"))
             && exists i :: 0 <= i < |responsesFetch.body| && |responsesFetch.body[i]| > 0))
    ensures (surveyId != "" && surveyFetch.Loaded? && responsesFetch.Loaded? && |responsesFetch.body| > 0
             && !Nullish(surveyFetch.body) && view.ErrorView?) ==>
      exists i ::
        && 0 <= i < |responsesFetch.body| && |responsesFetch.body[i]| > 0
        && (forall j :: 0 <= j < i ==> |responsesFetch.body[j]| == 0)
        && view.message == ReadError(Get(surveyFetch.body, "questions"), responsesFetch.body[i][0].0)
    ensures view == NoResponses <==>
      surveyId != "" && surveyFetch.Loaded? && responsesFetch.Loaded? && |responsesFetch.body| == 0
    ensures view.Listing? ==>
      && surveyFetch.Loaded? && responsesFetch.Loaded?
      && view.title == JsString(Get(surveyFetch.body, "title"))
      && view.total == |responsesFetch.body| == |view.cards| > 0
      && forall i :: 0 <= i < |view.cards| ==>
           view.cards[i] == Card(i + 1, ShownAnswers(Get(surveyFetch.body, "questions"), responsesFetch.body[i]))
  {
    if surveyId == "" {
      return SelectPrompt, [];
    }
    requests := ["/api/surveys/" + surveyId];
    if surveyFetch.Failed? {
      return ErrorView("Failed to load survey details"), requests;
    }
    var survey := surveyFetch.body;
    requests := requests + ["/api/surveys/" + surveyId + "/responses"];
    if responsesFetch.Failed? {
      return ErrorView("Failed to load responses"), requests;
    }
    var responses := responsesFetch.body;
    if |responses| == 0 {
      return NoResponses, requests;
    }
    if Nullish(survey) {
      return ErrorView(ReadError(survey, "title")), requests;
    }
    var title := JsString(Get(survey, "title"));
    var cards, error := RenderCards(Get(survey, "questions"), responses);
    if error.Some? {
      return ErrorView(error.value), requests;
    }
    view := Listing(title, |responses|, cards);
  }

  /** The two requests of a selection reach the lookup of the survey by id
      and the listing of its responses. */
  lemma SelectRequestsRoute(surveyId: string)
    requires Routes.IsSegment(surveyId) && surveyId != "link"
    ensures Routes.Route(Routes.GET, "/api/surveys/" + surveyId) == Some(Routes.GetSurveyById(surveyId))
    ensures Routes.Route(Routes.GET, "/api/surveys/" + surveyId + "/responses") == Some(Routes.ListResponses(surveyId))
  {
    Routes.RouteOfSurveyPath(surveyId);
    Routes.RouteOfResponsesPath(surveyId);
  }
}
