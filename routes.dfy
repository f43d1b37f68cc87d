/** The route table of app.js: the handler Express runs for a request method
    and path. A route parameter matches one non-empty path segment, and the
    first declared route that matches wins. */
module Routes {
  import opened Text
  import opened Values

  datatype Verb = GET | POST

  datatype Handler =
    | ListSurveys
    | CreateSurvey
    | GetSurveyById(id: string)
    | GetSurveyByLink(link: string)
    | SubmitResponse(surveyId: string)
    | ListResponses(surveyId: string)

  /** The handler for a request, or None when no API route matches. The
      routes are tried in the order app.js declares them, so for a GET
      `/api/surveys/link/responses` is the link route. */
  function Route(verb: Verb, path: string): (h: Option<Handler>)
    ensures h.Some? ==> (verb == POST <==> h.value.CreateSurvey? || h.value.SubmitResponse?)
    ensures h.Some? && h.value.GetSurveyById? ==> h.value.id != "" && '/' !in h.value.id
    ensures h.Some? && h.value.GetSurveyByLink? ==> h.value.link != "" && '/' !in h.value.link
    ensures h.Some? && (h.value.SubmitResponse? || h.value.ListResponses?) ==>
      h.value.surveyId != "" && '/' !in h.value.surveyId
  {
    var s := Split(path, '/');
    if |s| < 3 || s[0] != "" || s[1] != "api" || s[2] != "surveys" then None
    else if |s| == 3 then Some(if verb == GET then ListSurveys else CreateSurvey)
    else if verb == POST then
      if |s| == 5 && s[3] != "" && s[4] == "responses" then Some(SubmitResponse(s[3]))
      else None
    else if |s| == 4 && s[3] != "" then Some(GetSurveyById(s[3]))
    else if |s| == 5 && s[3] == "link" && s[4] != "" then Some(GetSurveyByLink(s[4]))
    else if |s| == 5 && s[3] != "" && s[4] == "responses" then Some(ListResponses(s[3]))
    else None
  }

  /** A character a browser keeps as it is inside a path segment: not a
      separator ('/' and, in URLs, '\\'), not the start of the query or the
      fragment, and not a tab or line break, which URL parsing strips. */
  predicate KeptInPath(c: char) {
    c != '/' && c != '\\' && c != '?' && c != '#' && c != '\t' && c != '\n' && c != '\r'
  }

  /** A path segment a browser requests unchanged: non-empty, not a dot
      segment, which URL resolution removes, and made of kept characters. */
  predicate IsSegment(x: string) {
    x != "" && x != "." && x != ".." && forall i :: 0 <= i < |x| ==> KeptInPath(x[i])
  }

  /** A segment holds no slash. */
  lemma SegmentHasNoSlash(x: string)
    requires IsSegment(x)
    ensures '/' !in x
  {
    assert forall i :: 0 <= i < |x| ==> x[i] != '/';
  }

  /** A slash-free segment followed by a slash is one segment of the path. */
  lemma LeadingSegment(segment: string, rest: string)
    requires '/' !in segment
    ensures Split(segment + "/" + rest, '/') == [segment] + Split(rest, '/')
  {
    SplitAtSeparator(segment, '/', rest);
    SplitNoSeparator(segment, '/');
  }

  /** The segments of a path below `/api/surveys/`. */
  lemma SurveysPathSegments(rest: string)
    ensures Split("/api/surveys/" + rest, '/') == ["", "api", "surveys"] + Split(rest, '/')
  {
    var inner := "surveys" + "/" + rest;
    var middle := "api" + "/" + inner;
    assert "/api/surveys/" + rest == "" + "/" + middle;
    LeadingSegment("surveys", rest);
    LeadingSegment("api", inner);
    LeadingSegment("", middle);
  }

  /** Two slash-free segments joined by a slash split into those two. */
  lemma TwoSegments(a: string, b: string)
    requires '/' !in a && '/' !in b
    ensures Split(a + "/" + b, '/') == [a, b]
  {
    LeadingSegment(a, b);
    SplitNoSeparator(b, '/');
  }

  /** `GET /api/surveys/{id}` reaches the lookup by id. */
  lemma RouteOfSurveyPath(id: string)
    requires IsSegment(id)
    ensures Route(GET, "/api/surveys/" + id) == Some(GetSurveyById(id))
  {
    SegmentHasNoSlash(id);
    SurveysPathSegments(id);
    SplitNoSeparator(id, '/');
  }

  /** `GET /api/surveys/link/{link}` reaches the lookup by link. */
  lemma RouteOfLinkPath(link: string)
    requires IsSegment(link)
    ensures Route(GET, "/api/surveys/link/" + link) == Some(GetSurveyByLink(link))
  {
    SegmentHasNoSlash(link);
    assert "/api/surveys/link/" + link == "/api/surveys/" + ("link" + "/" + link);
    SurveysPathSegments("link" + "/" + link);
    TwoSegments("link", link);
  }

  /** `/api/surveys/{id}/responses` reaches the submission handler on a POST,
      and the response listing on a GET unless the id is "link", which the
      earlier link route captures. */
  lemma RouteOfResponsesPath(id: string)
    requires IsSegment(id)
    ensures Route(POST, "/api/surveys/" + id + "/responses") == Some(SubmitResponse(id))
    ensures id != "link" ==> Route(GET, "/api/surveys/" + id + "/responses") == Some(ListResponses(id))
    ensures id == "link" ==> Route(GET, "/api/surveys/" + id + "/responses") == Some(GetSurveyByLink("responses"))
  {
    SegmentHasNoSlash(id);
    assert "/api/surveys/" + id + "/responses" == "/api/surveys/" + (id + "/" + "responses");
    SurveysPathSegments(id + "/" + "responses");
    TwoSegments(id, "responses");
  }
}
