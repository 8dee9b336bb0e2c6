/**
 * The request path of services/chatService.ts: the target URL, the fixed
 * chain of three fetch strategies that stops at the first `ok` response, the
 * check of the parsed body, and the error message shown to the user.
 *
 * `fetch` is an oracle `net` that maps each request to what happened to it;
 * `response.json()` is folded into that outcome as the parsed `Body`.
 */
module ChatService {
  import opened Common
  import opened Text
  import opened UriComponent
  import opened Types

  const ApiBaseUrl: string := "http://64.227.155.90:9100/chat/get"
  const DirectTimeoutMs: nat := 3000
  const AllOriginsPrefix: string := "https://api.allorigins.win/raw?url="
  const CodeTabsPrefix: string := "https://api.codetabs.com/v1/proxy?quest="

  const ExhaustedMessage: string := "Unable to connect to server after multiple attempts."
  const EmptyResponseMessage: string := "Empty response from model"
  const FailurePrefix: string := "**Connection Failed**: "
  const UnknownError: string := "Unknown error"
  const MixedContentNote: string :=
    "\n\n**Note**: Mixed Content blocking is likely. Attempted secure proxies but they may be busy."

  /** One call of `fetch`: the URL, and the abort timeout when there is one. */
  datatype Request = Request(url: string, timeoutMs: Option<nat>)

  /**
   * What `response.json()` gives: the `response` field when `data` is an
   * object whose field is a string, `None` when `data` or its field is null
   * or missing, or the parse error's message.
   */
  datatype Body = Json(response: Option<string>) | Malformed(message: string)

  /** What one `fetch` did: resolved with `ok`, resolved without `ok`, or rejected. */
  datatype Outcome = Ok(body: Body) | NotOk | Throws(message: string)

  /** The API URL: the base, the encoded prompt as `prompt`, then the model as `model`, which is not encoded. */
  function TargetUrl(prompt: string, model: string): (r: string)
    ensures |ApiBaseUrl + "?prompt="| <= |r| && r[..|ApiBaseUrl + "?prompt="|] == ApiBaseUrl + "?prompt="
    ensures |"&model=" + model| <= |r| && r[|r| - |"&model=" + model|..] == "&model=" + model
  {
    ApiBaseUrl + "?prompt=" + Encode(prompt) + "&model=" + model
  }

  /** The three strategies in the order they are tried. */
  function Strategies(targetUrl: string): seq<Request> {
    [ Request(targetUrl, Some(DirectTimeoutMs)),
      Request(AllOriginsPrefix + Encode(targetUrl), None),
      Request(CodeTabsPrefix + Encode(targetUrl), None) ]
  }

  /** The first request whose response is `ok` decides; a non-ok one and a throw both move on. */
  function TryInOrder(net: Request -> Outcome, requests: seq<Request>): Result<Body, string> {
    if requests == [] then Failure(ExhaustedMessage)
    else match net(requests[0])
      case Ok(body) => Success(body)
      case _ => TryInOrder(net, requests[1..])
  }

  /** The requests `TryInOrder` issues: all of them up to and including the first `ok` one. */
  function Issued(net: Request -> Outcome, requests: seq<Request>): seq<Request> {
    if requests == [] then []
    else if net(requests[0]).Ok? then [requests[0]]
    else [requests[0]] + Issued(net, requests[1..])
  }

  /** The index of the first request whose response is `ok`. */
  function FirstOk(net: Request -> Outcome, requests: seq<Request>): (r: Option<nat>)
    ensures r.Some? ==> r.value < |requests| && net(requests[r.value]).Ok?
    ensures r.Some? ==> forall j :: 0 <= j < r.value ==> !net(requests[j]).Ok?
    ensures r.None? ==> forall j :: 0 <= j < |requests| ==> !net(requests[j]).Ok?
  {
    if requests == [] then None
    else if net(requests[0]).Ok? then Some(0)
    else match FirstOk(net, requests[1..])
      case None => None
      case Some(k) => Some(k + 1)
  }

  /**
   * The selection rule: the body of the first `ok` response is returned and
   * exactly the requests up to it are issued; with none, every request is
   * issued and the result is the "multiple attempts" error.
   */
  lemma {:induction false} FirstOkSelected(net: Request -> Outcome, requests: seq<Request>)
    ensures FirstOk(net, requests).Some? ==>
      var k := FirstOk(net, requests).value;
      && TryInOrder(net, requests) == Success(net(requests[k]).body)
      && Issued(net, requests) == requests[..k + 1]
    ensures FirstOk(net, requests).None? ==>
      && TryInOrder(net, requests) == Failure(ExhaustedMessage)
      && Issued(net, requests) == requests
  {
    if requests != [] && !net(requests[0]).Ok? {
      FirstOkSelected(net, requests[1..]);
      if FirstOk(net, requests).Some? {
        var k := FirstOk(net, requests).value;
        assert requests[..k + 1] == [requests[0]] + requests[1..][..k];
      } else {
        assert requests == [requests[0]] + requests[1..];
      }
    }
  }

  /**
   * A response without `ok` is treated exactly like a thrown error: two
   * networks that agree on which requests succeed, and with what, give the
   * same result and issue the same requests.
   */
  lemma {:induction false} NotOkLikeThrows(net1: Request -> Outcome, net2: Request -> Outcome, requests: seq<Request>)
    requires forall i :: 0 <= i < |requests| ==>
      (net1(requests[i]).Ok? || net2(requests[i]).Ok?) ==> net1(requests[i]) == net2(requests[i])
    ensures TryInOrder(net1, requests) == TryInOrder(net2, requests)
    ensures Issued(net1, requests) == Issued(net2, requests)
  {
    if requests != [] {
      assert net1(requests[0]).Ok? <==> net2(requests[0]).Ok?;
      NotOkLikeThrows(net1, net2, requests[1..]);
    }
  }

  /**
   * `fetchWithFallback`: direct with a 3000 ms abort, then the AllOrigins and
   * the CodeTabs relays; returns at the first `ok` response.
   */
  method FetchWithFallback(net: Request -> Outcome, targetUrl: string)
    returns (res: Result<Body, string>, issued: seq<Request>)
    ensures res == TryInOrder(net, Strategies(targetUrl))
    ensures issued == Issued(net, Strategies(targetUrl))
  {
    ghost var all := Strategies(targetUrl);
    assert all[1..][1..][1..] == [];
    issued := [];

    var direct := Request(targetUrl, Some(DirectTimeoutMs));
    issued := issued + [direct];
    var outcome := net(direct);
    if outcome.Ok? {
      return Success(outcome.body), issued;
    }

    var proxyUrl1 := AllOriginsPrefix + Encode(targetUrl);
    var relay1 := Request(proxyUrl1, None);
    issued := issued + [relay1];
    outcome := net(relay1);
    if outcome.Ok? {
      return Success(outcome.body), issued;
    }

    assert all[1..][0] == relay1;
    assert TryInOrder(net, all) == TryInOrder(net, all[1..][1..]);
    assert Issued(net, all) == [direct, relay1] + Issued(net, all[1..][1..]);

    var proxyUrl2 := CodeTabsPrefix + Encode(targetUrl);
    var relay2 := Request(proxyUrl2, None);
    issued := issued + [relay2];
    outcome := net(relay2);
    if outcome.Ok? {
      return Success(outcome.body), issued;
    }

    res := Failure(ExhaustedMessage);
  }

  /** The inner error message, or "Unknown error" when it is empty. */
  function InnerMessage(message: string): (r: string)
    ensures r != []
    ensures message != [] ==> r == message
  {
    if message == [] then UnknownError else message
  }

  /**
   * The message of every error `sendMessageToApi` throws: the fixed prefix,
   * the inner message, a full stop, and the Mixed Content note when the page
   * is served over `https:` (the API base URL is plain `http:`).
   */
  function ConnectionError(message: string, protocol: string): string {
    var head := FailurePrefix + InnerMessage(message) + ".";
    if protocol == "https:" && StartsWith(ApiBaseUrl, "http:") then head + MixedContentNote else head
  }

  /** What `sendMessageToApi` resolves with (`Success`) or rejects with (`Failure`). */
  function SendResult(net: Request -> Outcome, prompt: string, model: string, protocol: string)
    : Result<string, string>
  {
    match TryInOrder(net, Strategies(TargetUrl(prompt, model)))
    case Failure(e) => Failure(ConnectionError(e, protocol))
    case Success(Malformed(e)) => Failure(ConnectionError(e, protocol))
    case Success(Json(response)) =>
      if response.Some? && response.value != [] then Success(response.value)
      else Failure(ConnectionError(EmptyResponseMessage, protocol))
  }

  /**
   * `sendMessageToApi`: builds the target URL, fetches with fallback, checks
   * the body, and rewraps every error as a connection failure.
   */
  method SendMessageToApi(net: Request -> Outcome, prompt: string, model: string, protocol: string)
    returns (res: Result<string, string>, issued: seq<Request>)
    ensures res == SendResult(net, prompt, model, protocol)
    ensures issued == Issued(net, Strategies(TargetUrl(prompt, model)))
  {
    var targetUrl := ApiBaseUrl + "?prompt=" + Encode(prompt) + "&model=" + model;
    var response;
    response, issued := FetchWithFallback(net, targetUrl);
    var failure: string;
    match response {
      case Success(Json(r)) =>
        if r.Some? && r.value != [] {
          return Success(r.value), issued;
        }
        failure := EmptyResponseMessage;
      case Success(Malformed(e)) =>
        failure := e;
      case Failure(e) =>
        failure := e;
    }
    var errorMsg := FailurePrefix + InnerMessage(failure) + ".";
    if protocol == "https:" && StartsWith(ApiBaseUrl, "http:") {
      errorMsg := errorMsg + MixedContentNote;
    }
    res := Failure(errorMsg);
  }

  // ---------------------------------------------------------------------------
  // Properties.

  /** No `&` in `s`. */
  predicate NoAmpersand(s: string) {
    forall i :: 0 <= i < |s| ==> s[i] != '&'
  }

  /** Text before the first `&` is determined by where the `&` is. */
  lemma {:induction false} SplitAtAmpersand(e1: string, r1: string, e2: string, r2: string)
    requires NoAmpersand(e1) && NoAmpersand(e2)
    requires e1 + "&" + r1 == e2 + "&" + r2
    ensures e1 == e2 && r1 == r2
  {
    var u := e1 + "&" + r1;
    assert u[|e1|] == '&' && u[|e2|] == '&';
    assert forall i :: 0 <= i < |e1| ==> u[i] == e1[i];
    assert forall i :: 0 <= i < |e2| ==> u[i] == e2[i];
    assert |e1| == |e2|;
    assert e1 == u[..|e1|] == e2;
    assert r1 == u[|e1| + 1..] == r2;
  }

  lemma CancelPrefix(h: string, x: string, y: string)
    requires h + x == h + y
    ensures x == y
  {
    assert x == (h + x)[|h|..];
  }

  lemma TargetUrlParts(prompt: string, model: string)
    ensures TargetUrl(prompt, model) == (ApiBaseUrl + "?prompt=") + (Encode(prompt) + "&" + ("model=" + model))
  {
  }

  /**
   * The target URL determines both the prompt and the model: the encoded
   * prompt holds no `&`, so `&model=` cannot be forged from the prompt.
   */
  lemma TargetUrlInjective(p1: string, m1: string, p2: string, m2: string)
    ensures TargetUrl(p1, m1) == TargetUrl(p2, m2) <==> p1 == p2 && m1 == m2
  {
    if TargetUrl(p1, m1) == TargetUrl(p2, m2) {
      var e1, e2 := Encode(p1), Encode(p2);
      TargetUrlParts(p1, m1);
      TargetUrlParts(p2, m2);
      CancelPrefix(ApiBaseUrl + "?prompt=", e1 + "&" + ("model=" + m1), e2 + "&" + ("model=" + m2));
      SplitAtAmpersand(e1, "model=" + m1, e2, "model=" + m2);
      CancelPrefix("model=", m1, m2);
      EncodeInjective(p1, p2);
    }
  }

  /** The identifiers offered in the model picker are not changed by encoding. */
  lemma AvailableModelsNeedNoEncoding()
    ensures forall i :: 0 <= i < |AvailableModels| ==> Encode(AvailableModels[i]) == AvailableModels[i]
  {
    forall i | 0 <= i < |AvailableModels|
      ensures Encode(AvailableModels[i]) == AvailableModels[i]
    {
      EncodeUnreserved(AvailableModels[i]);
    }
  }

  /**
   * Only the direct attempt carries the abort timeout, and each relay is its
   * prefix followed by the encoded target URL, which decodes back to it.
   */
  lemma StrategiesCarryTarget(targetUrl: string)
    ensures Strategies(targetUrl)[0] == Request(targetUrl, Some(DirectTimeoutMs))
    ensures Strategies(targetUrl)[1].timeoutMs.None? && Strategies(targetUrl)[2].timeoutMs.None?
    ensures StartsWith(Strategies(targetUrl)[1].url, AllOriginsPrefix)
    ensures Decode(Strategies(targetUrl)[1].url[|AllOriginsPrefix|..]) == Some(targetUrl)
    ensures StartsWith(Strategies(targetUrl)[2].url, CodeTabsPrefix)
    ensures Decode(Strategies(targetUrl)[2].url[|CodeTabsPrefix|..]) == Some(targetUrl)
  {
    var e := Encode(targetUrl);
    DecodeEncode(targetUrl);
    assert (AllOriginsPrefix + e)[|AllOriginsPrefix|..] == e;
    assert (CodeTabsPrefix + e)[|CodeTabsPrefix|..] == e;
  }

  /** The text `data.response` holds, empty when it is missing or the body did not parse. */
  function ResponseText(body: Body): string {
    if body.Json? && body.response.Some? then body.response.value else []
  }

  /**
   * `sendMessageToApi` resolves exactly when some strategy answered `ok` and
   * the first such answer has a non-empty `response`, and then resolves with it.
   */
  lemma ReplyIsFirstOkResponse(net: Request -> Outcome, prompt: string, model: string, protocol: string)
    ensures var requests := Strategies(TargetUrl(prompt, model));
      (SendResult(net, prompt, model, protocol).Success?)
        <==> FirstOk(net, requests).Some? && ResponseText(net(requests[FirstOk(net, requests).value]).body) != []
    ensures var requests := Strategies(TargetUrl(prompt, model));
      SendResult(net, prompt, model, protocol).Success? ==>
        SendResult(net, prompt, model, protocol).value
          == ResponseText(net(requests[FirstOk(net, requests).value]).body)
  {
    FirstOkSelected(net, Strategies(TargetUrl(prompt, model)));
  }

  /**
   * A missing or empty `response` in the first `ok` answer is an error of its
   * own, and no further strategy is tried after that answer.
   */
  lemma EmptyResponseNoFallback(net: Request -> Outcome, prompt: string, model: string, protocol: string)
    requires var requests := Strategies(TargetUrl(prompt, model));
      && FirstOk(net, requests).Some?
      && net(requests[FirstOk(net, requests).value]).body.Json?
      && ResponseText(net(requests[FirstOk(net, requests).value]).body) == []
    ensures SendResult(net, prompt, model, protocol) == Failure(ConnectionError(EmptyResponseMessage, protocol))
    ensures var requests := Strategies(TargetUrl(prompt, model));
      Issued(net, requests) == requests[..FirstOk(net, requests).value + 1]
  {
    FirstOkSelected(net, Strategies(TargetUrl(prompt, model)));
  }

  /** With no `ok` answer all three strategies are tried and the "multiple attempts" error is shown. */
  lemma AllFailedError(net: Request -> Outcome, prompt: string, model: string, protocol: string)
    requires FirstOk(net, Strategies(TargetUrl(prompt, model))).None?
    ensures SendResult(net, prompt, model, protocol) == Failure(ConnectionError(ExhaustedMessage, protocol))
    ensures Issued(net, Strategies(TargetUrl(prompt, model))) == Strategies(TargetUrl(prompt, model))
  {
    FirstOkSelected(net, Strategies(TargetUrl(prompt, model)));
  }

  /**
   * The shape of every error message: the prefix, the inner message (or
   * "Unknown error" when it is empty) and a full stop, then the Mixed Content
   * note exactly when the page protocol is `https:`.
   */
  lemma ConnectionErrorShape(message: string, protocol: string)
    ensures StartsWith(ConnectionError(message, protocol), FailurePrefix)
    ensures ConnectionError(message, protocol)[|FailurePrefix|..]
              == InnerMessage(message) + "." + (if protocol == "https:" then MixedContentNote else "")
  {
    assert StartsWith(ApiBaseUrl, "http:");
    var e := ConnectionError(message, protocol);
    var tail := InnerMessage(message) + "." + (if protocol == "https:" then MixedContentNote else "");
    assert e == FailurePrefix + tail;
  }
}
