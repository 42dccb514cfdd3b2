// client/src/utils/api.js: the front end's HTTP client. One ApiClient holds the
// base URL, the timeout and the headers sent with every request; the token is
// put into those headers at start-up and after login. fetch, the abort timer and
// localStorage are outside the model: what reaches the network is described by
// the RequestConfig a call builds, and what comes back by its ok flag, status
// and parsed body.

module HttpClient {
  import opened Optional
  import opened Text
  import opened Js
  import opened Database
  import ApiConfig
  import Auth

  const ContentType := "Content-Type"
  const Authorization := "Authorization"
  const JsonMediaType := "application/json"

  /** The headers every new client starts with. */
  function InitialHeaders(): map<string, string>
  {
    map[ContentType := JsonMediaType]
  }

  /** The default headers after setAuthToken(token): `Bearer <token>` for a truthy
      token, no Authorization header otherwise; every other header is kept. */
  function WithToken(headers: map<string, string>, token: JsValue): (r: map<string, string>)
    ensures Authorization in r <==> Truthy(token)
    ensures Truthy(token) ==> r[Authorization] == "Bearer " + ToText(token)
    ensures forall h :: h != Authorization ==> (h in r <==> h in headers)
    ensures forall h :: h in headers && h != Authorization ==> r[h] == headers[h]
  {
    if Truthy(token) then headers[Authorization := "Bearer " + ToText(token)]
    else headers - {Authorization}
  }

  /** `{...defaults, ...options}`: every header of either, the option's value winning. */
  function Merge(defaults: map<string, string>, options: map<string, string>): (r: map<string, string>)
    ensures forall h :: h in r <==> h in defaults || h in options
    ensures forall h :: h in options ==> r[h] == options[h]
    ensures forall h :: h in defaults && h !in options ==> r[h] == defaults[h]
  {
    map h | h in defaults.Keys + options.Keys :: if h in options then options[h] else defaults[h]
  }

  /** The methods that carry a body. */
  predicate SendsBody(verb: string)
  {
    verb == "POST" || verb == "PUT" || verb == "PATCH"
  }

  /** What request() hands to fetch, less the abort signal. */
  datatype RequestConfig = RequestConfig(verb: string, headers: map<string, string>, body: Option<JsonText>)

  /** An Error as the client throws it: `name` and `message`. */
  datatype ApiError = ApiError(name: string, message: JsValue)

  /** How a request settles once the response has been parsed. */
  datatype Outcome = Resolved(data: JsValue) | Rejected(error: ApiError)

  class ApiClient {
    var baseUrl: string
    var timeout: nat
    var defaultHeaders: map<string, string>

    /** `new ApiClient()`: the configuration chosen for the environment, and JSON
        as the content type. */
    constructor (env: ApiConfig.Environment)
      ensures baseUrl == ApiConfig.CurrentConfig(env).baseUrl
      ensures timeout == ApiConfig.CurrentConfig(env).timeout
      ensures defaultHeaders == InitialHeaders()
    {
      var config := ApiConfig.CurrentConfig(env);
      baseUrl := config.baseUrl;
      timeout := config.timeout;
      defaultHeaders := InitialHeaders();
    }

    /** setAuthToken: only the Authorization header changes. */
    method SetAuthToken(token: JsValue)
      modifies this
      ensures baseUrl == old(baseUrl) && timeout == old(timeout)
      ensures defaultHeaders == WithToken(old(defaultHeaders), token)
    {
      if Truthy(token) {
        defaultHeaders := defaultHeaders[Authorization := "Bearer " + ToText(token)];
      } else {
        defaultHeaders := defaultHeaders - {Authorization};
      }
    }

    /** buildUrl: an endpoint that already starts with "http" is used as it is,
        anything else is appended to the base URL. */
    function BuildUrl(endpoint: string): (url: string)
      reads this
      ensures StartsWith(endpoint, "http") ==> url == endpoint
      ensures !StartsWith(endpoint, "http") ==>
        StartsWith(url, baseUrl) && url[|baseUrl|..] == endpoint
    {
      if StartsWith(endpoint, "http") then endpoint else baseUrl + endpoint
    }

    /** The config request() builds: the method upper-cased, the default headers
        overlaid by the call's own, and the JSON of the data as the body when
        there is data and the method carries one. */
    function Configure(verb: string, data: JsValue, optionHeaders: map<string, string>): (c: RequestConfig)
      reads this
      ensures c.verb == ToUpper(verb)
      ensures c.headers == Merge(defaultHeaders, optionHeaders)
      ensures c.body.Some? <==> Truthy(data) && SendsBody(ToUpper(verb))
      ensures c.body.Some? ==> c.body.value == JsonOf(data)
    {
      var m := ToUpper(verb);
      RequestConfig(m, Merge(defaultHeaders, optionHeaders),
        if Truthy(data) && SendsBody(m) then Some(JsonOf(data)) else None)
    }
  }

  /** The text of the Error a failed response throws when the body has no message. */
  function StatusMessage(status: nat): (s: string)
    ensures StartsWith(s, StatusPrefix)
    ensures |s| > |StatusPrefix|
  {
    StatusPrefix + NatToString(status)
  }

  const StatusPrefix := "HTTP error! status: "

  /** `responseData.message`: the message field of an object body. */
  function MessageOf(data: JsValue): JsValue
  {
    if data.Obj? && "message" in data.fields then data.fields["message"] else Undefined
  }

  /** The end of request(): the parsed body for an ok response, otherwise an Error
      whose message is the server's message as text or, without one, the status. */
  function Settle(ok: bool, status: nat, data: JsValue): (o: Outcome)
    ensures ok <==> o.Resolved?
    ensures o.Resolved? ==> o.data == data
    ensures o.Rejected? ==> o.error.name == "Error"
    ensures o.Rejected? && Truthy(MessageOf(data)) ==> o.error.message == Str(ToText(MessageOf(data)))
    ensures o.Rejected? && !Truthy(MessageOf(data)) ==> o.error.message == Str(StatusMessage(status))
  {
    if ok then Resolved(data)
    else
      var m := MessageOf(data);
      Rejected(ApiError("Error", Str(if Truthy(m) then ToText(m) else StatusMessage(status))))
  }

  const TimeoutText := "Запрос прерван по таймауту"
  const FallbackText := "Произошла ошибка при обращении к серверу"

  /** handleApiError: the timeout text for an aborted request, otherwise the
      error's own message, or a generic text when it has none. */
  function HandleApiError(error: ApiError): (text: string)
    ensures error.name == "AbortError" ==> text == TimeoutText
    ensures error.name != "AbortError" && Truthy(error.message) ==> text == ToText(error.message)
    ensures error.name != "AbortError" && !Truthy(error.message) ==> text == FallbackText
  {
    if error.name == "AbortError" then TimeoutText
    else if Truthy(error.message) then ToText(error.message)
    else FallbackText
  }

  /** What the user is shown for a failed response: the server's message when it
      has one that prints as text, and the status otherwise; the status can be
      read back from that text. */
  lemma FailedResponseText(status: nat, data: JsValue)
    ensures var text := HandleApiError(Settle(false, status, data).error);
      && (Truthy(MessageOf(data)) && ToText(MessageOf(data)) != "" ==> text == ToText(MessageOf(data)))
      && (!Truthy(MessageOf(data)) ==>
            (text == StatusMessage(status) && ParseDecimal(text[|StatusPrefix|..]) == Some(status)))
  {
    var text := StatusMessage(status);
    assert text[|StatusPrefix|..] == NatToString(status);
    ParseDecimalOfNatToString(status);
  }

  /** `localStorage.getItem(...)`: a stored text or null. */
  function StoredToken(stored: Option<string>): JsValue
  {
    match stored
    case None => Null
    case Some(t) => Str(t)
  }

  /** Module start-up: the shared client, with the stored token installed when
      there is one. */
  method Startup(env: ApiConfig.Environment, stored: Option<string>) returns (client: ApiClient)
    ensures fresh(client)
    ensures client.baseUrl == ApiConfig.CurrentConfig(env).baseUrl
    ensures client.defaultHeaders == WithToken(InitialHeaders(), StoredToken(stored))
  {
    client := new ApiClient(env);
    var token := StoredToken(stored);
    if Truthy(token) {
      client.SetAuthToken(token);
    } else {
      assert WithToken(InitialHeaders(), token) == InitialHeaders();
    }
  }

  /** Upper-casing is done once: the method's spelling does not matter. */
  lemma ConfigureIgnoresCase(client: ApiClient, verb: string, data: JsValue, optionHeaders: map<string, string>)
    ensures client.Configure(ToUpper(verb), data, optionHeaders) == client.Configure(verb, data, optionHeaders)
  {
    ToUpperIdempotent(verb);
  }

  /** get() and delete() never send a body, whatever data is around; post() sends
      the JSON of any truthy data. */
  lemma BodyByVerb(client: ApiClient, data: JsValue, optionHeaders: map<string, string>)
    ensures client.Configure("GET", data, optionHeaders).body == None
    ensures client.Configure("DELETE", data, optionHeaders).body == None
    ensures Truthy(data) ==> client.Configure("POST", data, optionHeaders).body == Some(JsonOf(data))
  {
    assert ToUpper("GET") == "GET";
    assert ToUpper("DELETE") == "DELETE";
    assert ToUpper("POST") == "POST";
  }

  /** With an http base URL, buildUrl's result is passed through a second time
      unchanged: the URLs of buildApiUrl and of buildUrl agree. */
  lemma {:induction false} BuildUrlIdempotent(client: ApiClient, endpoint: string)
    requires StartsWith(client.baseUrl, "http")
    ensures client.BuildUrl(client.BuildUrl(endpoint)) == client.BuildUrl(endpoint)
  {
    var url := client.BuildUrl(endpoint);
    if !StartsWith(endpoint, "http") {
      assert url[..4] == client.baseUrl[..4];
    }
  }

  /** A relative endpoint reaches the same URL through buildUrl and through the
      configuration's buildApiUrl; an absolute one is left alone by buildUrl only. */
  lemma BuildUrlAgreesWithConfig(env: ApiConfig.Environment, client: ApiClient, endpoint: string)
    requires client.baseUrl == ApiConfig.CurrentConfig(env).baseUrl
    requires !StartsWith(endpoint, "http")
    ensures client.BuildUrl(endpoint) == ApiConfig.BuildApiUrl(env, endpoint)
    ensures client.BuildUrl(ApiConfig.BuildApiUrl(env, endpoint)) == ApiConfig.BuildApiUrl(env, endpoint)
  {
    BuildUrlIdempotent(client, endpoint);
  }

  /** Clearing the token after setting one leaves the headers as they were without it. */
  lemma ClearAfterSet(headers: map<string, string>, token: JsValue)
    ensures WithToken(WithToken(headers, token), Null) == headers - {Authorization}
  {
  }

  /** A token the server issued, installed with setAuthToken and not overridden by
      the call's own headers, gets every request past authenticateToken as that
      salon. */
  lemma {:induction false} IssuedTokenReachesServer(client: ApiClient, id: int, crypto: Auth.Crypto,
                                                    verb: string, data: JsValue, optionHeaders: map<string, string>)
    requires Auth.Sound(crypto)
    requires client.defaultHeaders == WithToken(InitialHeaders(), Str(crypto.sign(id)))
    requires Authorization !in optionHeaders
    ensures var headers := client.Configure(verb, data, optionHeaders).headers;
      Authorization in headers && Auth.Authenticate(Some(headers[Authorization]), crypto) == Auth.Granted(id)
  {
    Auth.AuthenticateIssuedToken(id, crypto);
  }
}
