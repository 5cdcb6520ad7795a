/**
 * The request handler of the edge worker (worker/src/index.ts): terminal
 * clients asking for `/` get the profile card as plain text, every other
 * request is forwarded to the origin unchanged.
 */
module Responder {
  import opened Wrappers
  import opened Text
  import opened ProfileCard

  /** Signatures of command-line HTTP clients, matched against the lower-cased user-agent. */
  const TERMINAL_AGENTS: seq<string> :=
    ["curl", "wget", "httpie", "fetch/", "lwp-request", "python-requests", "go-http-client"]

  const CARD_CONTENT_TYPE := "text/plain; charset=utf-8"

  /** What the handler looks at: the URL's path and the `user-agent` header, if present. */
  datatype Request = Request(pathname: string, userAgent: Option<string>)

  datatype Response =
    | Card(body: string, contentType: string)
    | Forwarded(request: Request)   // `fetch(request)`: the origin's response

  /** `agents.some((agent) => ua.includes(agent))` */
  function AnyIncluded(ua: string, agents: seq<string>): (r: bool)
    ensures r <==> exists i :: 0 <= i < |agents| && Contains(ua, agents[i])
  {
    if agents == [] then false
    else Contains(ua, agents[0]) || AnyIncluded(ua, agents[1..])
  }

  /** `isTerminalClient`: an absent header counts as the empty one. */
  function IsTerminalClient(userAgent: Option<string>): (r: bool)
    ensures var ua := Lower(userAgent.GetOr(""));
      r <==> (Contains(ua, "curl") || Contains(ua, "wget") || Contains(ua, "httpie") || Contains(ua, "fetch/")
              || Contains(ua, "lwp-request") || Contains(ua, "python-requests") || Contains(ua, "go-http-client"))
  {
    var ua := Lower(userAgent.GetOr(""));
    var agents := TERMINAL_AGENTS;
    assert agents[0] == "curl" && agents[1] == "wget" && agents[2] == "httpie" && agents[3] == "fetch/";
    assert agents[4] == "lwp-request" && agents[5] == "python-requests" && agents[6] == "go-http-client";
    assert forall i :: 0 <= i < |agents| ==>
      agents[i] == agents[0] || agents[i] == agents[1] || agents[i] == agents[2] || agents[i] == agents[3]
      || agents[i] == agents[4] || agents[i] == agents[5] || agents[i] == agents[6];
    AnyIncluded(ua, agents)
  }

  /** `fetch`: the card for a terminal client at `/`, the origin for everything else. */
  function Respond(request: Request, portrait: string): (r: Response)
    ensures r.Card? <==> request.pathname == "/" && IsTerminalClient(request.userAgent)
    ensures r.Card? ==> r.body == TerminalOutput(portrait) && r.contentType == "text/plain; charset=utf-8"
    ensures r.Forwarded? ==> r.request == request
  {
    if request.pathname == "/" && IsTerminalClient(request.userAgent) then
      Card(TerminalOutput(portrait), CARD_CONTENT_TYPE)
    else
      Forwarded(request)
  }

  /** Classification ignores letter case. */
  lemma ClassificationIgnoresCase(ua: string)
    ensures IsTerminalClient(Some(Lower(ua))) == IsTerminalClient(Some(ua))
  {
    LowerIdempotent(ua);
  }

  /** Without a user-agent no client is a terminal, so every request is forwarded. */
  lemma NoUserAgentForwarded(pathname: string, portrait: string)
    ensures !IsTerminalClient(None)
    ensures Respond(Request(pathname, None), portrait) == Forwarded(Request(pathname, None))
  {
    assert Lower("") == "";
  }

  /** `curl` asking for `/` gets the card, which names the site's owner. */
  lemma CurlGetsCard(portrait: string)
    ensures Respond(Request("/", Some("curl/8.0")), portrait).Card?
    ensures Contains(Respond(Request("/", Some("curl/8.0")), portrait).body, "Maarten Van Steenkiste")
  {
    var ua := Lower("curl/8.0");
    assert ua == "curl/8.0";
    assert OccursAt(ua, TERMINAL_AGENTS[0], 0) by { assert ua[0..4] == "curl"; }
    TerminalOutputNamesOwner(portrait);
  }

  /** A pattern whose first character is not at any place it could start does not occur. */
  lemma NoStart(s: string, t: string)
    requires |t| > 0
    requires forall j :: 0 <= j <= |s| - |t| ==> s[j] != t[0]
    ensures !Contains(s, t)
  {
    forall j | 0 <= j <= |s| - |t|
      ensures !OccursAt(s, t, j)
    {
      if j + |t| <= |s| {
        assert s[j..j + |t|][0] == s[j];
      }
    }
  }

  lemma MozillaLower()
    ensures Lower("Mozilla/5.0") == "mozilla/5.0"
  {
    var ua := Lower("Mozilla/5.0");
    assert ua[0] == 'm';
  }

  /** A browser's user-agent contains none of the signatures. */
  lemma MozillaNotTerminal()
    ensures !AnyIncluded("mozilla/5.0", TERMINAL_AGENTS)
  {
    var ua := "mozilla/5.0";
    NoStart(ua, "curl");
    NoStart(ua, "wget");
    NoStart(ua, "httpie");
    NoStart(ua, "fetch/");
    NoStart(ua, "lwp-request");
    NoStart(ua, "python-requests");
    NoStart(ua, "go-http-client");
  }

  /** An ordinary browser asking for `/` is forwarded. */
  lemma BrowserForwarded(portrait: string)
    ensures Respond(Request("/", Some("Mozilla/5.0")), portrait) == Forwarded(Request("/", Some("Mozilla/5.0")))
  {
    MozillaLower();
    MozillaNotTerminal();
  }
}
