/** The request path of one page of the participants report
    (fetch_participants.py, lines 59-63). The path starts from a fixed
    template and is grown by two conditional suffixes. */
module Endpoint {
  import opened Records

  const IncludeRegistrants: string := "&include_fields=registrant_id"
  const TokenParam: string := "&next_page_token="

  /** `/v2/metrics/{type}s/{id}/participants?page_size=10&type=past`. */
  function BasePath(meetingType: string, meetingId: string): string {
    "/v2/metrics/" + meetingType + "s/" + meetingId + "/participants?page_size=10&type=past"
  }

  /** The registrant flag, present for webinars only. */
  function Flag(meetingType: string): string {
    if meetingType == "webinar" then IncludeRegistrants else ""
  }

  /** The continuation parameter, present only for a non-empty token. */
  function TokenSuffix(token: Option<string>): string {
    if Truthy(token) then TokenParam + token.value else ""
  }

  /** The path a page request is sent to: the template, then what the two
      conditions add, in that order. */
  function EndpointPath(meetingType: string, meetingId: string, token: Option<string>): (r: string)
    ensures BasePath(meetingType, meetingId) <= r
    ensures r[|BasePath(meetingType, meetingId)|..] == Flag(meetingType) + TokenSuffix(token)
  {
    Concat3(BasePath(meetingType, meetingId), Flag(meetingType), TokenSuffix(token));
    BasePath(meetingType, meetingId) + Flag(meetingType) + TokenSuffix(token)
  }

  predicate EndsWith(s: string, suffix: string) {
    |suffix| <= |s| && s[|s| - |suffix|..] == suffix
  }

  /** Builds the path the way the script does, by appending to a string. */
  method BuildEndpoint(meetingType: string, meetingId: string, token: Option<string>) returns (path: string)
    ensures path == EndpointPath(meetingType, meetingId, token)
  {
    path := BasePath(meetingType, meetingId);
    if meetingType == "webinar" {
      path := path + IncludeRegistrants;
    }
    assert path == BasePath(meetingType, meetingId) + Flag(meetingType);
    if token.Some? && token.value != "" {
      path := path + TokenParam + token.value;
    }
    assert path == BasePath(meetingType, meetingId) + Flag(meetingType) + TokenSuffix(token);
  }

  /** Splitting a concatenation of three strings after its first part. */
  lemma Concat3(a: string, b: string, c: string)
    ensures a + b + c == a + (b + c)
    ensures a <= a + b + c && (a + b + c)[|a|..] == b + c
  {
    assert (a + b + c)[|a|..] == b + c;
  }

  /** Every path starts with the fixed template for its meeting type and id. */
  lemma EndpointStartsWithBase(meetingType: string, meetingId: string, token: Option<string>)
    ensures BasePath(meetingType, meetingId) <= EndpointPath(meetingType, meetingId, token)
  {
    Concat3(BasePath(meetingType, meetingId), Flag(meetingType), TokenSuffix(token));
  }

  /** Right after the template comes the registrant flag, if and only if the
      meeting type is "webinar". */
  lemma EndpointFlagIff(meetingType: string, meetingId: string, token: Option<string>)
    ensures var path := EndpointPath(meetingType, meetingId, token);
            var rest := path[|BasePath(meetingType, meetingId)|..];
            IncludeRegistrants <= rest <==> meetingType == "webinar"
  {
    Concat3(BasePath(meetingType, meetingId), Flag(meetingType), TokenSuffix(token));
    var tail := Flag(meetingType) + TokenSuffix(token);
    if meetingType == "webinar" {
      assert tail == IncludeRegistrants + TokenSuffix(token);
    } else {
      NoFlagInTokenSuffix(token);
    }
  }

  /** A continuation parameter never starts like the registrant flag. */
  lemma NoFlagInTokenSuffix(token: Option<string>)
    ensures !(IncludeRegistrants <= TokenSuffix(token))
  {
    var t := TokenSuffix(token);
    if t != [] {
      assert t[1] == TokenParam[1] == 'n';
      assert IncludeRegistrants[1] == 'i';
    }
  }

  /** The last character of a path without continuation parameter. */
  lemma HeadLastChar(meetingType: string, meetingId: string)
    ensures var head := BasePath(meetingType, meetingId) + Flag(meetingType);
            |head| > 0 && head[|head| - 1] == (if meetingType == "webinar" then 'd' else 't')
  {
    var base := BasePath(meetingType, meetingId);
    var suffix := "/participants?page_size=10&type=past";
    assert base == ("/v2/metrics/" + meetingType + "s/" + meetingId) + suffix;
    assert base[|base| - 1] == suffix[|suffix| - 1] == 't';
    if meetingType == "webinar" {
      var head := base + IncludeRegistrants;
      assert head[|head| - 1] == IncludeRegistrants[|IncludeRegistrants| - 1] == 'd';
    }
  }

  /** With a token `v`, the path ends with `&next_page_token=v` if and only
      if `v` is non-empty. */
  lemma EndpointTokenIff(meetingType: string, meetingId: string, v: string)
    ensures EndsWith(EndpointPath(meetingType, meetingId, Some(v)), TokenParam + v) <==> v != ""
  {
    var head := BasePath(meetingType, meetingId) + Flag(meetingType);
    var path := EndpointPath(meetingType, meetingId, Some(v));
    if v != "" {
      assert path == head + (TokenParam + v);
      assert path[|path| - |TokenParam + v|..] == TokenParam + v;
    } else {
      assert path == head;
      HeadLastChar(meetingType, meetingId);
      assert (TokenParam + v)[|TokenParam + v| - 1] == '=';
    }
  }

  /** Reads the continuation token back out of a path built for the given
      meeting type and id: `None` when the path carries no token. */
  function TokenOf(path: string, meetingType: string, meetingId: string): Option<string> {
    var head := BasePath(meetingType, meetingId) + Flag(meetingType);
    if head <= path && TokenParam < path[|head|..] then
      Some(path[|head| + |TokenParam|..])
    else
      None
  }

  /** The path carries exactly the non-empty token it was built with, and
      an absent or empty token leaves no trace in it. */
  lemma {:induction false} EndpointTokenRoundTrip(meetingType: string, meetingId: string, token: Option<string>)
    ensures TokenOf(EndpointPath(meetingType, meetingId, token), meetingType, meetingId)
            == (if Truthy(token) then token else None)
  {
    var head := BasePath(meetingType, meetingId) + Flag(meetingType);
    var path := EndpointPath(meetingType, meetingId, token);
    if Truthy(token) {
      Concat3(head, TokenParam, token.value);
      assert path[|head|..] == TokenParam + token.value;
      assert path[|head| + |TokenParam|..] == token.value;
    } else {
      assert path == head;
    }
  }
}
