/** The pagination driver (fetch_participants.py, lines 76-84): pages are
    requested one after another, each with the previous page's continuation
    token, and every page is recorded, until a page comes back whose
    `next_page_token` is absent or empty. The remote API is abstract: the
    i-th request is answered with `pages[i]`. */
module Pagination {
  import opened Records
  import opened Endpoint

  /** Some page ends the report. The script has no cap on the number of
      requests, so without such a page it never stops. */
  predicate HasFinalPage(pages: seq<Page>) {
    exists k :: 0 <= k < |pages| && !Truthy(pages[k].nextPageToken)
  }

  /** The first page at or after `from` without a continuation token. */
  function FinalPageFrom(pages: seq<Page>, from: nat): (k: nat)
    requires exists k :: from <= k < |pages| && !Truthy(pages[k].nextPageToken)
    ensures from <= k < |pages| && !Truthy(pages[k].nextPageToken)
    ensures forall j :: from <= j < k ==> Truthy(pages[j].nextPageToken)
    decreases |pages| - from
  {
    if !Truthy(pages[from].nextPageToken) then from else FinalPageFrom(pages, from + 1)
  }

  /** The index of the page on which the driver stops. */
  function FinalPage(pages: seq<Page>): (k: nat)
    requires HasFinalPage(pages)
    ensures k < |pages| && !Truthy(pages[k].nextPageToken)
    ensures forall j :: 0 <= j < k ==> Truthy(pages[j].nextPageToken)
  {
    FinalPageFrom(pages, 0)
  }

  /** The token passed with the i-th request: none for the first, then the
      token of the page before. */
  function TokenSent(pages: seq<Page>, i: nat): Option<string>
    requires i <= |pages|
  {
    if i == 0 then None else pages[i - 1].nextPageToken
  }

  /** The paths of the first `n` requests. */
  function RequestPaths(meetingType: string, meetingId: string, pages: seq<Page>, n: nat): (r: seq<string>)
    requires n <= |pages|
    ensures |r| == n
  {
    if n == 0 then []
    else RequestPaths(meetingType, meetingId, pages, n - 1) + [EndpointPath(meetingType, meetingId, TokenSent(pages, n - 1))]
  }

  lemma {:induction false} RequestPathsAt(meetingType: string, meetingId: string, pages: seq<Page>, n: nat, i: nat)
    requires i < n <= |pages|
    ensures RequestPaths(meetingType, meetingId, pages, n)[i] == EndpointPath(meetingType, meetingId, TokenSent(pages, i))
  {
    if i < n - 1 {
      RequestPathsAt(meetingType, meetingId, pages, n - 1, i);
    }
  }

  /** Runs the requests. `fetched` is the raw-output file, one page per
      line in fetch order; `requests` are the paths requested. */
  method FetchAll(meetingType: string, meetingId: string, pages: seq<Page>)
    returns (fetched: seq<Page>, requests: seq<string>)
    requires HasFinalPage(pages)
    ensures fetched == pages[..FinalPage(pages) + 1]
    ensures |requests| == |fetched|
    ensures forall i :: 0 <= i < |requests| ==>
              requests[i] == EndpointPath(meetingType, meetingId, TokenSent(pages, i))
  {
    ghost var last := FinalPage(pages);
    fetched, requests := [], [];
    var nextPageToken: Option<string> := None;
    var i := 0;
    while true
      invariant i <= last
      invariant fetched == pages[..i]
      invariant requests == RequestPaths(meetingType, meetingId, pages, i)
      invariant nextPageToken == TokenSent(pages, i)
      decreases |pages| - i
    {
      var path := BuildEndpoint(meetingType, meetingId, nextPageToken);
      var response := pages[i];
      assert pages[..i + 1] == pages[..i] + [response];
      requests := requests + [path];
      fetched := fetched + [response];
      nextPageToken := response.nextPageToken;
      i := i + 1;
      if !(nextPageToken.Some? && nextPageToken.value != "") {
        assert i - 1 == last;
        break;
      }
    }
    forall j | 0 <= j < |requests|
      ensures requests[j] == EndpointPath(meetingType, meetingId, TokenSent(pages, j))
    {
      RequestPathsAt(meetingType, meetingId, pages, i, j);
    }
  }

  /** Every request after the first carries the previous page's token, and
      the first carries none. */
  lemma RequestsCarryPreviousToken(meetingType: string, meetingId: string, pages: seq<Page>, i: nat)
    requires HasFinalPage(pages) && i <= FinalPage(pages)
    ensures TokenOf(EndpointPath(meetingType, meetingId, TokenSent(pages, i)), meetingType, meetingId)
            == TokenSent(pages, i)
    ensures i > 0 ==> Truthy(TokenSent(pages, i))
  {
    EndpointTokenRoundTrip(meetingType, meetingId, TokenSent(pages, i));
  }

  /** Three pages, the second without a token: exactly two requests, the
      second carrying the first page's token. */
  lemma StopsAtFirstFinalPage(p0: Page, p1: Page, p2: Page)
    requires p0.nextPageToken == Some("t0") && p1.nextPageToken == Some("")
    ensures HasFinalPage([p0, p1, p2]) && FinalPage([p0, p1, p2]) == 1
    ensures TokenSent([p0, p1, p2], 1) == Some("t0")
  {
    assert !Truthy([p0, p1, p2][1].nextPageToken);
  }
}
