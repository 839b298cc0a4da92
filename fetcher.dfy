/** The decision logic of `get_response` (User.py:28-49).

    The HTTP request itself is a parameter `transport` from the URL to the
    response, and the JSON decoder is a parameter `decode`. What is left is
    the choice of URL and the choice of result from the status code and the
    `return_json` flag.
 */
module RemoteFetcher {

  /** The fixed base address of the REST API. */
  const ApiUrl: string := "https://api.github.com"

  /** The only status code `get_response` treats as success. */
  const StatusOk: int := 200

  /** The response of one request: its status code and its body. */
  datatype HttpResponse = HttpResponse(statusCode: int, content: string)

  /** What `get_response` returns: the decoded body, the raw response, or `None`. */
  datatype Fetched<J> = Parsed(json: J) | Raw(response: HttpResponse) | Absent

  /** `sub` occurs in `s` at position `i`. */
  predicate OccursAt(s: string, sub: string, i: nat)
  {
    i + |sub| <= |s| && s[i..i + |sub|] == sub
  }

  /** Python's `sub in s` for strings, as a statement about positions. */
  predicate HasSubstring(s: string, sub: string)
  {
    exists i: nat | i <= |s| :: OccursAt(s, sub, i)
  }

  /** Python's `sub in s`, by scanning the start positions left to right. */
  function Contains(s: string, sub: string): (found: bool)
    ensures found <==> HasSubstring(s, sub)
    decreases |s|
  {
    if |s| < |sub| then
      assert forall i: nat :: !OccursAt(s, sub, i);
      false
    else if s[..|sub|] == sub then
      assert OccursAt(s, sub, 0);
      true
    else
      var rest := Contains(s[1..], sub);
      assert forall i: nat :: OccursAt(s[1..], sub, i) <==> OccursAt(s, sub, i + 1) by {
        forall i: nat ensures OccursAt(s[1..], sub, i) <==> OccursAt(s, sub, i + 1) {
          if i + 1 + |sub| <= |s| {
            assert s[1..][i..i + |sub|] == s[i + 1..i + 1 + |sub|];
          }
        }
      }
      assert !OccursAt(s, sub, 0);
      assert HasSubstring(s, sub) ==> HasSubstring(s[1..], sub) by {
        if HasSubstring(s, sub) {
          var i: nat :| OccursAt(s, sub, i);
          assert i > 0;
          assert OccursAt(s[1..], sub, i - 1);
        }
      }
      rest
  }

  /** The URL a request for `endpoint` goes to: an endpoint that mentions
      `https` is used as it is, any other is a path under the API base. */
  function ResolveUrl(endpoint: string): (url: string)
    ensures HasSubstring(endpoint, "https") ==> url == endpoint
    ensures !HasSubstring(endpoint, "https") ==> url == ApiUrl + "/" + endpoint
    ensures HasSubstring(url, "https")
  {
    if Contains(endpoint, "https") then endpoint
    else
      var url := ApiUrl + "/" + endpoint;
      assert OccursAt(url, "https", 0);
      url
  }

  /** Resolving a resolved URL changes nothing: an address is never
      prefixed twice. */
  lemma ResolveUrlIdempotent(endpoint: string)
    ensures ResolveUrl(ResolveUrl(endpoint)) == ResolveUrl(endpoint)
  {
  }

  /** The three-way choice of result from the status code and the flag. */
  function SelectResult<J>(response: HttpResponse, returnJson: bool, decode: HttpResponse -> J): (r: Fetched<J>)
    ensures r.Parsed? <==> response.statusCode == StatusOk && returnJson
    ensures r.Raw? <==> response.statusCode == StatusOk && !returnJson
    ensures r.Absent? <==> response.statusCode != StatusOk
    ensures r.Parsed? ==> r.json == decode(response)
    ensures r.Raw? ==> r.response == response
  {
    if response.statusCode == StatusOk && returnJson then Parsed(decode(response))
    else if response.statusCode == StatusOk then Raw(response)
    else Absent
  }

  /** `get_response(endpoint_url, return_json)`: one request to the resolved
      URL, then the choice of result. */
  function GetResponse<J>(endpoint: string, returnJson: bool,
                          transport: string -> HttpResponse,
                          decode: HttpResponse -> J): (r: Fetched<J>)
    ensures var response := transport(ResolveUrl(endpoint));
      && (r.Absent? <==> response.statusCode != StatusOk)
      && (r.Parsed? ==> returnJson && r.json == decode(response))
      && (r.Raw? ==> !returnJson && r.response == response)
    ensures HasSubstring(endpoint, "https") ==>
      r == SelectResult(transport(endpoint), returnJson, decode)
  {
    var url := ResolveUrl(endpoint);
    SelectResult(transport(url), returnJson, decode)
  }
}
