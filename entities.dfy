/** The entity layer of app.js: the shareable-link generator and the `Survey`
    and `SurveyResponse` records, each with its constructor and `validate`. */
module Entities {
  import opened Values

  newtype byte = x: int | 0 <= x < 256

  /** The number of random bytes behind a shareable link. */
  const LinkBytes := 6

  predicate IsLowerHexDigit(c: char) { '0' <= c <= '9' || 'a' <= c <= 'f' }

  predicate IsShareableLink(s: string) {
    |s| == 2 * LinkBytes && forall i :: 0 <= i < |s| ==> IsLowerHexDigit(s[i])
  }

  function HexDigit(d: int): (c: char)
    requires 0 <= d < 16
    ensures IsLowerHexDigit(c)
  {
    if d < 10 then ('0' as int + d) as char else ('a' as int + (d - 10)) as char
  }

  function HexDigitValue(c: char): (d: int)
    requires IsLowerHexDigit(c)
    ensures 0 <= d < 16 && HexDigit(d) == c
  {
    if c <= '9' then c as int - '0' as int else c as int - 'a' as int + 10
  }

  /** `buffer.toString('hex')`: two lower-case digits per byte, high nibble first. */
  function Hex(bytes: seq<byte>): (s: string)
    ensures |s| == 2 * |bytes|
    ensures forall i :: 0 <= i < |s| ==> IsLowerHexDigit(s[i])
  {
    if |bytes| == 0 then ""
    else [HexDigit(bytes[0] as int / 16), HexDigit(bytes[0] as int % 16)] + Hex(bytes[1..])
  }

  /** The inverse of `Hex`: reads pairs of lower-case hex digits back into bytes. */
  function DecodeHex(s: string): (r: Option<seq<byte>>)
    decreases |s|
  {
    if |s| == 0 then Some([])
    else if |s| == 1 || !IsLowerHexDigit(s[0]) || !IsLowerHexDigit(s[1]) then None
    else
      match DecodeHex(s[2..])
      case None => None
      case Some(rest) => Some([(16 * HexDigitValue(s[0]) + HexDigitValue(s[1])) as byte] + rest)
  }

  lemma {:induction false} DecodeHexInvertsHex(bytes: seq<byte>)
    ensures DecodeHex(Hex(bytes)) == Some(bytes)
  {
    if |bytes| > 0 {
      var s := Hex(bytes);
      var b := bytes[0] as int;
      assert s[2..] == Hex(bytes[1..]);
      DecodeHexInvertsHex(bytes[1..]);
      assert HexDigitValue(s[0]) == b / 16 && HexDigitValue(s[1]) == b % 16;
      assert [bytes[0]] + bytes[1..] == bytes;
    }
  }

  lemma {:induction false} HexInvertsDecodeHex(s: string, bytes: seq<byte>)
    requires DecodeHex(s) == Some(bytes)
    ensures Hex(bytes) == s
    decreases |s|
  {
    if |s| > 0 {
      var rest :| DecodeHex(s[2..]) == Some(rest);
      HexInvertsDecodeHex(s[2..], rest);
      var hi, lo := HexDigitValue(s[0]), HexDigitValue(s[1]);
      var b := (16 * hi + lo) as byte;
      assert bytes == [b] + rest;
      assert bytes[1..] == rest;
      assert b as int / 16 == hi && b as int % 16 == lo;
      assert s == [s[0], s[1]] + s[2..];
    }
  }

  /** `generateShareableLink`: the hex encoding of six random bytes, which are
      a parameter here. Distinct bytes give distinct links, and every
      well-formed link comes from exactly one choice of bytes. */
  function GenerateShareableLink(random: seq<byte>): (link: string)
    requires |random| == LinkBytes
    ensures IsShareableLink(link)
    ensures DecodeHex(link) == Some(random)
  {
    DecodeHexInvertsHex(random);
    Hex(random)
  }

  /** An even number of lower-case hex digits decodes, to half as many bytes. */
  lemma {:induction false} DecodeHexOfDigits(s: string)
    requires |s| % 2 == 0 && forall i :: 0 <= i < |s| ==> IsLowerHexDigit(s[i])
    ensures DecodeHex(s).Some? && 2 * |DecodeHex(s).value| == |s|
    decreases |s|
  {
    if |s| > 0 {
      DecodeHexOfDigits(s[2..]);
    }
  }

  /** Every well-formed shareable link is the link of the bytes it decodes to. */
  lemma ShareableLinkDecodes(link: string)
    requires IsShareableLink(link)
    ensures DecodeHex(link).Some? && |DecodeHex(link).value| == LinkBytes
    ensures GenerateShareableLink(DecodeHex(link).value) == link
  {
    DecodeHexOfDigits(link);
    HexInvertsDecodeHex(link, DecodeHex(link).value);
  }

  /** The outcome of a `validate()`: passing, or the message of the thrown Error. */
  datatype Outcome = Pass | Fail(message: string)

  const TitleRequired := "Survey title is required"
  const QuestionsMustBeArray := "Questions must be an array"
  const SurveyIdRequired := "Survey ID is required"
  const ResponsesRequired := "Responses are required"

  /** The fields `Model`'s constructor leaves on a new object: `createdAt` is
      stamped first and `Object.assign` then copies every payload field over
      it, so a payload's own `createdAt` wins. */
  function ModelFields(data: map<string, Value>, now: int): (fields: map<string, Value>)
    ensures fields.Keys == data.Keys + {"createdAt"}
    ensures forall k :: k in data ==> fields[k] == data[k]
    ensures "createdAt" !in data ==> fields["createdAt"] == Num(now)
  {
    map["createdAt" := Num(now)] + data
  }

  /** The fields of `new Survey(data)`: those of `Model`, and then a freshly
      generated `shareableLink` that replaces any the payload carried. */
  function SurveyFields(data: map<string, Value>, now: int, random: seq<byte>): (fields: map<string, Value>)
    requires |random| == LinkBytes
    ensures fields.Keys == data.Keys + {"createdAt", "shareableLink"}
    ensures fields["shareableLink"] == Str(GenerateShareableLink(random))
    ensures forall k :: k in data && k != "shareableLink" ==> fields[k] == data[k]
    ensures "createdAt" !in data ==> fields["createdAt"] == Num(now)
  {
    ModelFields(data, now)["shareableLink" := Str(GenerateShareableLink(random))]
  }

  /** A survey under construction: the object `new Survey(data)` builds. */
  class Survey {
    var fields: map<string, Value>

    constructor (data: map<string, Value>, now: int, random: seq<byte>)
      requires |random| == LinkBytes
      ensures fields == SurveyFields(data, now, random)
    {
      fields := ModelFields(data, now);
      new;
      fields := fields["shareableLink" := Str(GenerateShareableLink(random))];
    }

    /** `Survey.validate`: the title must be truthy and `questions` an array,
        and the title is checked first. */
    function Validate(): (r: Outcome)
      reads this
      ensures r == Pass <==> Truthy(Get(Obj(fields), "title")) && IsArray(Get(Obj(fields), "questions"))
      ensures !Truthy(Get(Obj(fields), "title")) ==> r == Fail(TitleRequired)
      ensures Truthy(Get(Obj(fields), "title")) && !IsArray(Get(Obj(fields), "questions")) ==> r == Fail(QuestionsMustBeArray)
    {
      var questions := Get(Obj(fields), "questions");
      if !Truthy(Get(Obj(fields), "title")) then Fail(TitleRequired)
      else if !Truthy(questions) || !IsArray(questions) then Fail(QuestionsMustBeArray)
      else Pass
    }
  }

  /** A response under construction: the object `new SurveyResponse(surveyId, responses)` builds. */
  class SurveyResponse {
    var fields: map<string, Value>

    constructor (surveyId: Value, responses: Value, now: int)
      ensures fields == ModelFields(map["surveyId" := surveyId, "responses" := responses], now)
      ensures Get(Obj(fields), "surveyId") == surveyId && Get(Obj(fields), "responses") == responses
    {
      fields := ModelFields(map["surveyId" := surveyId, "responses" := responses], now);
    }

    /** `SurveyResponse.validate`: a missing survey id is reported before the
        responses are looked at; it passes when both are present. */
    function Validate(): (r: Outcome)
      reads this
      ensures r == Pass <==> Truthy(Get(Obj(fields), "surveyId")) && Truthy(Get(Obj(fields), "responses"))
      ensures !Truthy(Get(Obj(fields), "surveyId")) ==> r == Fail(SurveyIdRequired)
      ensures Truthy(Get(Obj(fields), "surveyId")) && !Truthy(Get(Obj(fields), "responses")) ==> r == Fail(ResponsesRequired)
    {
      if !Truthy(Get(Obj(fields), "surveyId")) then Fail(SurveyIdRequired)
      else if !Truthy(Get(Obj(fields), "responses")) then Fail(ResponsesRequired)
      else Pass
    }
  }

  /** A stored survey document: the store-assigned id and the fields it was saved with. */
  datatype SurveyDoc = SurveyDoc(id: string, record: map<string, Value>)

  /** The `shareableLink` field of a stored survey ("" if it has none). */
  function LinkOf(d: SurveyDoc): string {
    if "shareableLink" in d.record && d.record["shareableLink"].Str? then d.record["shareableLink"].s else ""
  }

  /** A stored response document. */
  datatype ResponseDoc = ResponseDoc(id: string, surveyId: string, responses: Value, submittedAt: int)
}
