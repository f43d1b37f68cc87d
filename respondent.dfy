/** The respondent page, public/survey.js: which endpoint it loads the survey
    from, the inputs it renders for each question, how it folds the submitted
    form into the `responses` object, and where it posts it. */
module Respondent {
  import opened Text
  import opened Values
  import Routes

  /** A URL parameter as `URLSearchParams.get` returns it: absent (`null`) or a string. */
  predicate Present(param: Option<string>) { param.Some? && param.value != "" }

  /** The endpoint the page fetches the survey from, given the `id` and `link`
      parameters; None when neither is given, and the page then stops without
      fetching. `id` wins over `link`. */
  function Endpoint(id: Option<string>, link: Option<string>): (url: Option<string>)
    ensures url.None? <==> !Present(id) && !Present(link)
    ensures Present(id) ==> url == Some("/api/surveys/" + id.value)
    ensures !Present(id) && Present(link) ==> url == Some("/api/surveys/link/" + link.value)
  {
    if !Present(id) && !Present(link) then None
    else
      var identifier := if Present(id) then id.value else link.value;
      Some(if Present(id) then "/api/surveys/" + identifier else "/api/surveys/link/" + identifier)
  }

  /** The name shared by every input of the question at `index`. */
  function InputName(index: nat): (name: string)
    ensures |name| >= 2 && name[0] == 'q' && IsCanonicalDecimal(name[1..])
    ensures ParseDecimal(name[1..]) == index
  {
    ParseNatToString(index);
    "q" + NatToString(index)
  }

  /** An input of the rendered form, with its `name` and, for a choice, its `value`. */
  datatype Input =
    | TextInput(name: string)
    | Radio(name: string, value: string)
    | Checkbox(name: string, value: string)

  /** The inputs rendered for one question, chosen by a strict comparison of
      `questionType` with "text", "single" and "multiple": one text box, one
      radio button per option, or one checkbox per option; no input for any
      other type. None when rendering throws: the question is `null`, or a
      choice question's `options` is not an array (it has no `map`). */
  function RenderInputs(question: Value, index: nat): (r: Option<seq<Input>>)
    ensures r.Some? ==> forall k :: 0 <= k < |r.value| ==> r.value[k].name == InputName(index)
    ensures r.None? <==>
      Nullish(question)
      || ((Get(question, "questionType") == Str("single") || Get(question, "questionType") == Str("multiple"))
          && !IsArray(Get(question, "options")))
    ensures !Nullish(question) && Get(question, "questionType") == Str("text") ==>
      r == Some([TextInput(InputName(index))])
    ensures !Nullish(question) && Get(question, "questionType") !in [Str("text"), Str("single"), Str("multiple")] ==>
      r == Some([])
    ensures r.Some? && Get(question, "questionType") == Str("single") ==>
      var options := Get(question, "options").items;
      |r.value| == |options| && forall k :: 0 <= k < |options| ==> r.value[k] == Radio(InputName(index), JsString(options[k]))
    ensures r.Some? && Get(question, "questionType") == Str("multiple") ==>
      var options := Get(question, "options").items;
      |r.value| == |options| && forall k :: 0 <= k < |options| ==> r.value[k] == Checkbox(InputName(index), JsString(options[k]))
  {
    var name := InputName(index);
    if Nullish(question) then None
    else
      var questionType := Get(question, "questionType");
      var options := Get(question, "options");
      if questionType == Str("text") then Some([TextInput(name)])
      else if questionType == Str("single") then
        if !options.Arr? then None
        else Some(seq(|options.items|, k requires 0 <= k < |options.items| => Radio(name, JsString(options.items[k]))))
      else if questionType == Str("multiple") then
        if !options.Arr? then None
        else Some(seq(|options.items|, k requires 0 <= k < |options.items| => Checkbox(name, JsString(options.items[k]))))
      else Some([])
  }

  /** One rendered question: its heading (the question text) and its inputs. */
  datatype QuestionView = QuestionView(heading: string, inputs: seq<Input>)

  /** The `forEach` that appends one block per question to the form. A
      question that throws stops the loop: the blocks appended before it stay
      on the page and the page reports the error. */
  method RenderForm(questions: seq<Value>) returns (blocks: seq<QuestionView>, failed: bool)
    ensures |blocks| <= |questions|
    ensures forall i :: 0 <= i < |blocks| ==>
      RenderInputs(questions[i], i).Some?
      && blocks[i] == QuestionView(JsString(Get(questions[i], "questionText")), RenderInputs(questions[i], i).value)
    ensures failed <==> exists i :: 0 <= i < |questions| && RenderInputs(questions[i], i).None?
    ensures failed ==> RenderInputs(questions[|blocks|], |blocks|).None?
    ensures !failed ==> |blocks| == |questions|
  {
    blocks := [];
    var i := 0;
    while i < |questions|
      invariant 0 <= i <= |questions| && |blocks| == i
      invariant forall j :: 0 <= j < i ==>
        RenderInputs(questions[j], j).Some?
        && blocks[j] == QuestionView(JsString(Get(questions[j], "questionText")), RenderInputs(questions[j], j).value)
    {
      var inputs := RenderInputs(questions[i], i);
      if inputs.None? {
        return blocks, true;
      }
      blocks := blocks + [QuestionView(JsString(Get(questions[i], "questionText")), inputs.value)];
      i := i + 1;
    }
    failed := false;
  }

  /** The key an entry's name is stored under: `name.replace('q', '')`, which
      removes the first "q". */
  function QuestionKey(name: string): (key: string)
    ensures 'q' !in name ==> key == name
    ensures |name| > 0 && name[0] == 'q' ==> key == name[1..]
  {
    RemoveFirst(name, 'q')
  }

  /** The name of every input of question `index` maps back to the numeral of `index`. */
  lemma {:induction false} QuestionKeyOfInputName(index: nat)
    ensures QuestionKey(InputName(index)) == NatToString(index)
  {
    var digits := NatToString(index);
    assert InputName(index)[0] == 'q' && InputName(index)[1..] == digits;
  }

  /** A form entry `[name, value]` of `FormData.entries()`. */
  type Entry = (string, string)

  /** The distinct keys of the entries, in the order they first occur. */
  function KeysInOrder(entries: seq<Entry>): (keys: seq<string>)
    ensures forall i, j :: 0 <= i < j < |keys| ==> keys[i] != keys[j]
  {
    if |entries| == 0 then []
    else
      var keys := KeysInOrder(entries[..|entries| - 1]);
      var key := QuestionKey(entries[|entries| - 1].0);
      if key in keys then keys else keys + [key]
  }

  /** The keys are exactly the keys of the entries. */
  lemma {:induction false} KeysInOrderMembers(entries: seq<Entry>)
    ensures forall k :: k in KeysInOrder(entries) <==> exists i :: 0 <= i < |entries| && QuestionKey(entries[i].0) == k
  {
    if |entries| > 0 {
      var init := entries[..|entries| - 1];
      KeysInOrderMembers(init);
      assert forall i :: 0 <= i < |init| ==> init[i] == entries[i];
    }
  }

  /** The values of the entries stored under `key`, in entry order. */
  function ValuesFor(entries: seq<Entry>, key: string): (values: seq<string>)
    ensures |values| <= |entries|
  {
    if |entries| == 0 then []
    else
      var last := entries[|entries| - 1];
      ValuesFor(entries[..|entries| - 1], key) + (if QuestionKey(last.0) == key then [last.1] else [])
  }

  /** A key no entry maps to holds no values. */
  lemma {:induction false} ValuesForAbsentKey(entries: seq<Entry>, key: string)
    requires key !in KeysInOrder(entries)
    ensures ValuesFor(entries, key) == []
  {
    if |entries| > 0 {
      var init := entries[..|entries| - 1];
      assert key !in KeysInOrder(init);
      ValuesForAbsentKey(init, key);
    }
  }

  /** The number of values stored under the given keys. */
  function CountValues(entries: seq<Entry>, keys: seq<string>): nat {
    if |keys| == 0 then 0 else |ValuesFor(entries, keys[0])| + CountValues(entries, keys[1..])
  }

  lemma {:induction false} CountValuesAppendKey(entries: seq<Entry>, keys: seq<string>, key: string)
    ensures CountValues(entries, keys + [key]) == CountValues(entries, keys) + |ValuesFor(entries, key)|
  {
    if |keys| > 0 {
      assert (keys + [key])[1..] == keys[1..] + [key];
      CountValuesAppendKey(entries, keys[1..], key);
    }
  }

  lemma {:induction false} CountValuesAppendEntry(entries: seq<Entry>, e: Entry, keys: seq<string>)
    requires forall i, j :: 0 <= i < j < |keys| ==> keys[i] != keys[j]
    ensures CountValues(entries + [e], keys) == CountValues(entries, keys) + (if QuestionKey(e.0) in keys then 1 else 0)
  {
    if |keys| > 0 {
      assert (entries + [e])[..|entries + [e]| - 1] == entries;
      CountValuesAppendEntry(entries, e, keys[1..]);
      assert QuestionKey(e.0) == keys[0] ==> QuestionKey(e.0) !in keys[1..];
    }
  }

  /** No value is lost: the groups hold as many values as there are entries. */
  lemma {:induction false} CountValuesOfAllKeys(entries: seq<Entry>)
    ensures CountValues(entries, KeysInOrder(entries)) == |entries|
  {
    if |entries| > 0 {
      var init := entries[..|entries| - 1];
      var e := entries[|entries| - 1];
      assert init + [e] == entries;
      var keys := KeysInOrder(init);
      CountValuesOfAllKeys(init);
      CountValuesAppendEntry(init, e, keys);
      if QuestionKey(e.0) !in keys {
        CountValuesAppendKey(entries, keys, QuestionKey(e.0));
        ValuesForAbsentKey(init, QuestionKey(e.0));
      }
    }
  }

  /** The number of values a `responses` object holds under the given keys. */
  function StoredCount(responses: map<string, Value>, keys: seq<string>): nat {
    if |keys| == 0 then 0
    else (if keys[0] in responses && responses[keys[0]].Arr? then |responses[keys[0]].items| else 0)
         + StoredCount(responses, keys[1..])
  }

  lemma {:induction false} StoredCountOfGroups(responses: map<string, Value>, entries: seq<Entry>, keys: seq<string>)
    requires forall k :: k in keys ==> k in responses && responses[k] == Arr(Strs(ValuesFor(entries, k)))
    ensures StoredCount(responses, keys) == CountValues(entries, keys)
  {
    if |keys| > 0 {
      StoredCountOfGroups(responses, entries, keys[1..]);
    }
  }

  /** `responses` holds, under each key of `prefix`, the array of that key's values. */
  ghost predicate Collected(responses: map<string, Value>, prefix: seq<Entry>) {
    && (forall k :: k in responses <==> k in KeysInOrder(prefix))
    && (forall k :: k in responses ==> responses[k] == Arr(Strs(ValuesFor(prefix, k))))
  }

  /** One more entry adds its value to the end of its own key's group only. */
  lemma ValuesForSnoc(prefix: seq<Entry>, e: Entry, k: string)
    ensures QuestionKey(e.0) == k ==> ValuesFor(prefix + [e], k) == ValuesFor(prefix, k) + [e.1]
    ensures QuestionKey(e.0) != k ==> ValuesFor(prefix + [e], k) == ValuesFor(prefix, k)
  {
    assert (prefix + [e])[..|prefix|] == prefix;
    assert ValuesFor(prefix, k) + [] == ValuesFor(prefix, k);
  }

  /** Strings as values distribute over appending one more string. */
  lemma StrsSnoc(values: seq<string>, value: string)
    ensures Strs(values + [value]) == Strs(values) + [Str(value)]
  {
  }

  /** After the push, the key `k` holds the array of its values in `prefix + [e]`. */
  lemma CollectStepAt(responses: map<string, Value>, prefix: seq<Entry>, e: Entry, key: string, current: seq<Value>, k: string)
    requires Collected(responses, prefix)
    requires key == QuestionKey(e.0)
    requires current == (if key in responses then responses[key].items else [])
    requires k in responses || k == key
    ensures responses[key := Arr(current + [Str(e.1)])][k] == Arr(Strs(ValuesFor(prefix + [e], k)))
  {
    ValuesForSnoc(prefix, e, k);
    if k == key {
      if key !in responses {
        ValuesForAbsentKey(prefix, key);
      }
      StrsSnoc(ValuesFor(prefix, key), e.1);
    }
  }

  /** Pushing the next entry's value onto its key's array (created empty on
      first use) extends a collection of `prefix` to one of `prefix + [e]`. */
  lemma {:induction false} CollectStep(responses: map<string, Value>, prefix: seq<Entry>, e: Entry, current: seq<Value>)
    requires Collected(responses, prefix)
    requires current == (if QuestionKey(e.0) in responses then responses[QuestionKey(e.0)].items else [])
    ensures Collected(responses[QuestionKey(e.0) := Arr(current + [Str(e.1)])], prefix + [e])
  {
    var key := QuestionKey(e.0);
    var next := prefix + [e];
    assert next[..|next| - 1] == prefix && next[|next| - 1] == e;
    var r := responses[key := Arr(current + [Str(e.1)])];
    var keys := KeysInOrder(prefix);
    assert KeysInOrder(next) == if key in keys then keys else keys + [key];
    assert forall k :: k in r <==> k in KeysInOrder(next);
    forall k | k in r
      ensures r[k] == Arr(Strs(ValuesFor(next, k)))
    {
      CollectStepAt(responses, prefix, e, key, current, k);
    }
  }

  /** What a collection of all the entries holds: exactly their keys, each
      mapped to the array of its values, as many values in all as entries. */
  lemma CollectedMeans(responses: map<string, Value>, entries: seq<Entry>)
    requires Collected(responses, entries)
    ensures forall k :: k in responses <==> k in KeysInOrder(entries)
    ensures forall k :: k in responses ==> responses[k].Arr? && responses[k] == Arr(Strs(ValuesFor(entries, k)))
    ensures StoredCount(responses, KeysInOrder(entries)) == |entries|
  {
    CountValuesOfAllKeys(entries);
    StoredCountOfGroups(responses, entries, KeysInOrder(entries));
  }

  /** Every key of a collection holds an array. */
  lemma CollectedArray(responses: map<string, Value>, prefix: seq<Entry>, key: string)
    requires Collected(responses, prefix) && key in responses
    ensures responses[key].Arr?
  {
  }

  /** The `responses` object the submit handler builds from `entries`: each
      entry's value pushed onto the array under its key, created empty on
      first use. */
  function Collection(entries: seq<Entry>): map<string, Value> {
    if |entries| == 0 then map[]
    else
      var m := Collection(entries[..|entries| - 1]);
      var e := entries[|entries| - 1];
      var key := QuestionKey(e.0);
      m[key := Arr((if key in m && m[key].Arr? then m[key].items else []) + [Str(e.1)])]
  }

  /** The object built from the entries groups them: its keys are those of the
      entries and each holds the array of its key's values in entry order. */
  lemma {:induction false} CollectionCollects(entries: seq<Entry>)
    ensures Collected(Collection(entries), entries)
  {
    if |entries| > 0 {
      var init := entries[..|entries| - 1];
      var e := entries[|entries| - 1];
      CollectionCollects(init);
      var m := Collection(init);
      var key := QuestionKey(e.0);
      if key in m {
        CollectedArray(m, init, key);
      }
      CollectStep(m, init, e, if key in m then m[key].items else []);
      assert init + [e] == entries;
    }
  }

  /** The submit handler's `for...of` over `formData.entries()`. Each entry's
      value is pushed onto the array under its key, created as `[]` on first
      use. Afterwards every key maps to an array, never a bare value; each
      array holds its key's values in entry order; and the arrays together
      hold exactly as many values as there were entries. */
  method CollectResponses(entries: seq<Entry>) returns (responses: map<string, Value>)
    ensures forall k :: k in responses <==> k in KeysInOrder(entries)
    ensures forall k :: k in responses ==> responses[k].Arr? && responses[k] == Arr(Strs(ValuesFor(entries, k)))
    ensures StoredCount(responses, KeysInOrder(entries)) == |entries|
  {
    responses := map[];
    var i := 0;
    while i < |entries|
      invariant 0 <= i <= |entries|
      invariant responses == Collection(entries[..i])
    {
      var (name, value) := entries[i];
      var key := QuestionKey(name);
      if key in responses {
        CollectionCollects(entries[..i]);
        CollectedArray(responses, entries[..i], key);
      }
      var current: seq<Value>;
      if key !in responses || !Truthy(responses[key]) {
        current := [];
      } else if IsArray(responses[key]) {
        current := responses[key].items;
      } else {
        // The source's branch that wraps a bare value into an array: every key
        // starts as [], so it never runs.
        assert false;
      }
      assert entries[..i + 1][..i] == entries[..i];
      responses := responses[key := Arr(current + [Str(value)])];
      i := i + 1;
    }
    assert entries[..i] == entries;
    CollectionCollects(entries);
    CollectedMeans(responses, entries);
  }

  /** The URL the answers are posted to: the `id` parameter when it was given,
      otherwise the `_id` of the survey fetched by link. */
  function SubmitUrl(id: Option<string>, survey: Value): (url: string)
    ensures Present(id) ==> url == "/api/surveys/" + id.value + "/responses"
    ensures !Present(id) ==> url == "/api/surveys/" + JsString(Get(survey, "_id")) + "/responses"
  {
    var actualSurveyId := if Present(id) then id.value else JsString(Get(survey, "_id"));
    "/api/surveys/" + actualSurveyId + "/responses"
  }

  /** The survey is loaded through the route that looks it up by the
      parameter that won, when that parameter is a single path segment. */
  lemma EndpointRoute(id: Option<string>, link: Option<string>)
    requires Endpoint(id, link).Some?
    requires Present(id) ==> Routes.IsSegment(id.value)
    requires !Present(id) && Present(link) ==> Routes.IsSegment(link.value)
    ensures Present(id) ==>
      Routes.Route(Routes.GET, Endpoint(id, link).value) == Some(Routes.GetSurveyById(id.value))
    ensures !Present(id) ==>
      Routes.Route(Routes.GET, Endpoint(id, link).value) == Some(Routes.GetSurveyByLink(link.value))
  {
    if Present(id) {
      Routes.RouteOfSurveyPath(id.value);
    } else {
      Routes.RouteOfLinkPath(link.value);
    }
  }

  /** The answers are posted to the submission handler of the survey the
      page names: the `id` parameter, or the `_id` of the survey fetched by link. */
  lemma SubmitUrlRoute(id: Option<string>, survey: Value)
    requires Routes.IsSegment(if Present(id) then id.value else JsString(Get(survey, "_id")))
    ensures Routes.Route(Routes.POST, SubmitUrl(id, survey))
      == Some(Routes.SubmitResponse(if Present(id) then id.value else JsString(Get(survey, "_id"))))
  {
    Routes.RouteOfResponsesPath(if Present(id) then id.value else JsString(Get(survey, "_id")));
  }
}
