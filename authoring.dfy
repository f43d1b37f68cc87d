/** The survey-authoring page (public/script.js): the question blocks the
    author adds and edits, the parsing of each block's options textarea, and
    the payload the form posts to `POST /api/surveys`. */
module Authoring {
  import opened Text
  import opened Values
  import Api

  // ---------------------------------------------------------------------------
  // Options parsing

  /** The filter's test `opt.trim()`: the trimmed line is a non-empty, so
      truthy, string exactly when the line is not blank. */
  function Filled(line: string): (r: bool)
    ensures r <==> !Blank(line)
  {
    TrimEmptyIffBlank(line);
    Trim(line) != ""
  }

  /** `lines.filter(opt => opt.trim())`: keeps the lines that hold a
      non-whitespace character, unchanged and in order. */
  function KeepNonBlank(lines: seq<string>): (kept: seq<string>)
    ensures |kept| <= |lines|
    decreases |lines|
  {
    if |lines| == 0 then []
    else (if Filled(lines[0]) then [lines[0]] else []) + KeepNonBlank(lines[1..])
  }

  /** Filtering distributes over concatenation: kept lines stay in their order. */
  lemma {:induction false} KeepNonBlankAppend(a: seq<string>, b: seq<string>)
    ensures KeepNonBlank(a + b) == KeepNonBlank(a) + KeepNonBlank(b)
    decreases |a|
  {
    if |a| > 0 {
      assert (a + b)[0] == a[0] && (a + b)[1..] == a[1..] + b;
      KeepNonBlankAppend(a[1..], b);
      var head := if Filled(a[0]) then [a[0]] else [];
      assert KeepNonBlank(a + b) == head + (KeepNonBlank(a[1..]) + KeepNonBlank(b));
      assert KeepNonBlank(a) == head + KeepNonBlank(a[1..]);
    } else {
      assert a + b == b;
    }
  }

  /** A line is kept exactly when it is one of the lines and is not blank. */
  lemma {:induction false} KeepNonBlankMembers(lines: seq<string>, s: string)
    ensures s in KeepNonBlank(lines) <==> s in lines && !Blank(s)
    decreases |lines|
  {
    if |lines| > 0 {
      KeepNonBlankMembers(lines[1..], s);
      assert lines == [lines[0]] + lines[1..];
    }
  }

  /** Lines that are all non-blank are all kept. */
  lemma {:induction false} KeepNonBlankOfNonBlank(lines: seq<string>)
    requires forall i :: 0 <= i < |lines| ==> !Blank(lines[i])
    ensures KeepNonBlank(lines) == lines
    decreases |lines|
  {
    if |lines| > 0 {
      KeepNonBlankOfNonBlank(lines[1..]);
    }
  }

  /** `textarea?.value.split('\n').filter(opt => opt.trim()) || []`: the
      non-blank lines of the options textarea, or none when the block has no
      textarea. No option holds a line break and every option holds a
      non-whitespace character. */
  function ParseOptions(textarea: Option<string>): (options: seq<string>)
    ensures textarea.None? ==> options == []
  {
    match textarea
    case None => []
    case Some(text) => KeepNonBlank(Split(text, '\n'))
  }

  /** Every option is a single line holding a non-whitespace character. */
  lemma ParseOptionsWellFormed(textarea: Option<string>)
    ensures forall s :: s in ParseOptions(textarea) ==> '\n' !in s && !Blank(s)
  {
    if textarea.Some? {
      var lines := Split(textarea.value, '\n');
      forall s | s in ParseOptions(textarea)
        ensures '\n' !in s && !Blank(s)
      {
        KeepNonBlankMembers(lines, s);
      }
    }
  }

  /** An empty textarea gives no options. */
  lemma EmptyTextareaHasNoOptions()
    ensures ParseOptions(Some("")) == []
  {
    assert Split("", '\n') == [""];
    assert !Filled("");
  }

  /** The options of two blocks of text on either side of a line break are
      those of the first followed by those of the second. */
  lemma ParseOptionsAtLineBreak(a: string, b: string)
    ensures ParseOptions(Some(a + "\n" + b)) == ParseOptions(Some(a)) + ParseOptions(Some(b))
  {
    SplitAtSeparator(a, '\n', b);
    KeepNonBlankAppend(Split(a, '\n'), Split(b, '\n'));
  }

  /** A string is an option of the textarea exactly when it is one of its
      lines, unchanged (not trimmed), and is not blank. */
  lemma ParseOptionsMembers(text: string, s: string)
    ensures s in ParseOptions(Some(text)) <==> s in Split(text, '\n') && !Blank(s)
  {
    KeepNonBlankMembers(Split(text, '\n'), s);
  }

  /** Writing options one per line and parsing the textarea gives them back. */
  lemma ParseOptionsOfLines(options: seq<string>)
    requires forall i :: 0 <= i < |options| ==> '\n' !in options[i] && !Blank(options[i])
    ensures ParseOptions(Some(Join(options, "\n"))) == options
  {
    if |options| == 0 {
      EmptyTextareaHasNoOptions();
    } else {
      SplitJoin(options, '\n');
      KeepNonBlankOfNonBlank(options);
    }
  }

  // ---------------------------------------------------------------------------
  // Question blocks

  /** A `.question` block: its label, the values of its text input, type
      select and options textarea, and whether the options container shows. */
  datatype QuestionBlock = QuestionBlock(
    heading: string,
    text: string,
    questionType: string,
    optionsShown: bool,
    optionsText: Option<string>)

  /** The label of the block added when `count` blocks exist: "Question {count + 1}:". */
  function QuestionHeading(count: nat): string {
    "Question " + NatToString(count + 1) + ":"
  }

  /** The values the type select offers. */
  predicate IsQuestionType(t: string) { t == "text" || t == "multiple" }

  /** A block as `addQuestion` creates it: empty text, type "text", options
      hidden and an empty textarea. */
  function NewBlock(count: nat): (b: QuestionBlock)
    ensures b.heading == QuestionHeading(count) && b.questionType == "text" && !b.optionsShown
    ensures b.optionsText == Some("")
  {
    QuestionBlock(QuestionHeading(count), "", "text", false, Some(""))
  }

  /** The block at position `index` is labelled with its own number and its
      options show exactly when its type is "multiple". */
  predicate WellFormedBlock(b: QuestionBlock, index: nat) {
    && b.heading == QuestionHeading(index)
    && IsQuestionType(b.questionType)
    && (b.optionsShown <==> b.questionType == "multiple")
  }

  /** The record pushed for one block. */
  function QuestionRecord(b: QuestionBlock): (q: Value)
    ensures Get(q, "questionText") == Str(b.text)
    ensures Get(q, "questionType") == Str(b.questionType)
    ensures Get(q, "options") == Arr(Strs(ParseOptions(b.optionsText)))
  {
    Obj(map["questionText" := Str(b.text), "questionType" := Str(b.questionType),
            "options" := Arr(Strs(ParseOptions(b.optionsText)))])
  }

  /** `f` applied to each element, in order. */
  function Mapped<A, B>(f: A -> B, xs: seq<A>): (ys: seq<B>)
    ensures |ys| == |xs|
    ensures forall i :: 0 <= i < |xs| ==> ys[i] == f(xs[i])
  {
    if |xs| == 0 then [] else Mapped(f, xs[..|xs| - 1]) + [f(xs[|xs| - 1])]
  }

  /** The records of the blocks, in document order: one per block, each the
      record of the block at its position. */
  function QuestionsOf(blocks: seq<QuestionBlock>): (questions: seq<Value>)
    ensures |questions| == |blocks|
    ensures forall i :: 0 <= i < |blocks| ==> questions[i] == QuestionRecord(blocks[i])
  {
    Mapped(QuestionRecord, blocks)
  }

  /** The object the submit handler posts: `{ title, description, questions }`. */
  function SurveyPayload(title: string, description: string, questions: seq<Value>): (body: map<string, Value>)
    ensures Get(Obj(body), "title") == Str(title)
    ensures Get(Obj(body), "description") == Str(description)
    ensures Get(Obj(body), "questions") == Arr(questions)
  {
    map["title" := Str(title), "description" := Str(description), "questions" := Arr(questions)]
  }

  /** The record of a block passes the server's per-question checks exactly
      when the block's text is not empty: its type is always set and its
      options are always an array, possibly an empty one. */
  lemma QuestionRecordPasses(b: QuestionBlock, index: nat)
    requires IsQuestionType(b.questionType)
    ensures Api.QuestionFault(QuestionRecord(b), index).None? <==> b.text != ""
  {
  }

  /** The server accepts what the page posts exactly when the title is not
      empty and every block has text; a "multiple" block without options is
      accepted. */
  lemma AuthoredPayloadAccepted(title: string, description: string, blocks: seq<QuestionBlock>)
    requires forall i :: 0 <= i < |blocks| ==> IsQuestionType(blocks[i].questionType)
    ensures Api.PayloadAccepted(SurveyPayload(title, description, QuestionsOf(blocks)))
      <==> title != "" && forall i :: 0 <= i < |blocks| ==> blocks[i].text != ""
  {
    var questions := QuestionsOf(blocks);
    forall i | 0 <= i < |blocks|
      ensures Api.QuestionFault(questions[i], i).None? <==> blocks[i].text != ""
    {
      QuestionRecordPasses(blocks[i], i);
    }
  }

  /** The authoring page: the question counter and the `.question` blocks of
      the questions container, in document order. */
  class AuthoringPage {
    var questionCount: nat
    var blocks: seq<QuestionBlock>

    /** The counter counts the blocks, and every block is well formed at its position. */
    ghost predicate Valid()
      reads this
    {
      && questionCount == |blocks|
      && forall i :: 0 <= i < |blocks| ==> WellFormedBlock(blocks[i], i)
    }

    /** The page as loaded: no questions. */
    constructor ()
      ensures Valid() && questionCount == 0 && blocks == []
    {
      questionCount := 0;
      blocks := [];
    }

    /** `addQuestion`: appends a block labelled with the next number and
        increments the counter by one. */
    method AddQuestion()
      requires Valid()
      modifies this
      ensures Valid()
      ensures questionCount == old(questionCount) + 1
      ensures blocks == old(blocks) + [NewBlock(old(questionCount))]
    {
      blocks := blocks + [NewBlock(questionCount)];
      questionCount := questionCount + 1;
    }

    /** The author picks `value` in a block's type select, and
        `handleQuestionTypeChange` shows the options exactly for "multiple". */
    method SelectQuestionType(index: nat, value: string)
      requires Valid() && index < |blocks| && IsQuestionType(value)
      modifies this
      ensures Valid() && questionCount == old(questionCount)
      ensures blocks == old(blocks)[index := old(blocks)[index].(questionType := value, optionsShown := value == "multiple")]
      ensures blocks[index].optionsShown <==> value == "multiple"
    {
      var optionsShown := value == "multiple";
      blocks := blocks[index := blocks[index].(questionType := value, optionsShown := optionsShown)];
    }

    /** The author types into a block's question text input. */
    method EditQuestionText(index: nat, text: string)
      requires Valid() && index < |blocks|
      modifies this
      ensures Valid() && questionCount == old(questionCount)
      ensures blocks == old(blocks)[index := old(blocks)[index].(text := text)]
    {
      blocks := blocks[index := blocks[index].(text := text)];
    }

    /** The author types into a block's options textarea. */
    method EditOptions(index: nat, text: string)
      requires Valid() && index < |blocks|
      modifies this
      ensures Valid() && questionCount == old(questionCount)
      ensures blocks == old(blocks)[index := old(blocks)[index].(optionsText := Some(text))]
    {
      blocks := blocks[index := blocks[index].(optionsText := Some(text))];
    }

    /** The `forEach` over the `.question` blocks: one record per block, in
        document order, holding its text, type and parsed options. */
    method CollectQuestions() returns (questions: seq<Value>)
      ensures questions == QuestionsOf(blocks)
    {
      var all := blocks;
      questions := [];
      var i := 0;
      while i < |all|
        invariant 0 <= i <= |all| && questions == QuestionsOf(all[..i])
      {
        var block := all[i];
        var options := ParseOptions(block.optionsText);
        var question := Obj(map["questionText" := Str(block.text), "questionType" := Str(block.questionType),
                                "options" := Arr(Strs(options))]);
        assert all[..i + 1][..i] == all[..i];
        questions := questions + [question];
        i := i + 1;
      }
      assert all[..i] == all;
    }

    /** The submit handler up to the request: the body it posts. */
    method BuildPayload(title: string, description: string) returns (body: map<string, Value>)
      ensures body == SurveyPayload(title, description, QuestionsOf(blocks))
    {
      var questions := CollectQuestions();
      body := map["title" := Str(title), "description" := Str(description), "questions" := Arr(questions)];
    }

    /** The submit handler after the reply: a successful creation empties the
        questions container and resets the counter; a failed one leaves the
        page as it was. */
    method OnCreateResponse(ok: bool)
      requires Valid()
      modifies this
      ensures Valid()
      ensures ok ==> questionCount == 0 && blocks == []
      ensures !ok ==> questionCount == old(questionCount) && blocks == old(blocks)
    {
      if ok {
        blocks := [];
        questionCount := 0;
      }
    }
  }
}
