// client/src/config/api.js: which server the front end talks to, and the
// paths of the API endpoints. The build's NODE_ENV and the page's hostname
// are read from the environment; here they are a parameter.

module ApiConfig {
  import opened Text
  import opened Js
  import opened Sql

  datatype Environment = Environment(nodeEnv: string, hostname: string)

  datatype Config = Config(baseUrl: string, timeout: nat)

  const Development := Config("http://localhost:5000/api", 10000)
  const ProductionHost := "kosmobob-beauty-crm-salon-45ff.twc1.net"
  const Production := Config("https://" + ProductionHost + "/api", 15000)

  /** A development build, or a page served from this machine. */
  predicate IsDevelopment(env: Environment)
  {
    env.nodeEnv == "development" || env.hostname == "localhost" || env.hostname == "127.0.0.1"
  }

  predicate IsProduction(env: Environment)
  {
    !IsDevelopment(env)
  }

  /** The configuration in force: exactly one of the two, chosen by IsDevelopment. */
  function CurrentConfig(env: Environment): (c: Config)
    ensures c == Development <==> IsDevelopment(env)
    ensures c == Production <==> IsProduction(env)
    ensures StartsWith(c.baseUrl, "http") && c.timeout >= 10000
  {
    assert Development.baseUrl[..4] == "http";
    assert Production.baseUrl == "https://" + (ProductionHost + "/api");
    assert Production.baseUrl[..4] == "http";
    if IsDevelopment(env) then Development else Production
  }

  /** A page opened at localhost talks to the local server whatever the build says. */
  lemma LocalPageUsesLocalServer(nodeEnv: string)
    ensures CurrentConfig(Environment(nodeEnv, "localhost")).baseUrl == "http://localhost:5000/api"
  {
  }

  const RegisterPath := "/auth/register"
  const LoginPath := "/auth/login"
  const DashboardPath := "/salon/dashboard"
  const SalonInfoPath := "/salon/info"
  const MastersPath := "/masters"
  const ServicesPath := "/services"
  const AppointmentsPath := "/appointments"
  const ClientsPath := "/clients"
  const HealthPath := "/health"
  const DebugPath := "/debug"

  /** `(id) => \`${collection}/${id}\``, the shape of every *_BY_ID builder. */
  function ById(collection: string, id: JsValue): string
  {
    collection + "/" + ToText(id)
  }

  function MasterById(id: JsValue): string { ById(MastersPath, id) }
  function ServiceById(id: JsValue): string { ById(ServicesPath, id) }
  function AppointmentById(id: JsValue): string { ById(AppointmentsPath, id) }
  function ClientById(id: JsValue): string { ById(ClientsPath, id) }

  /** `${API_BASE_URL}${endpoint}`: always prefixed, even for an absolute URL. */
  function BuildApiUrl(env: Environment, endpoint: string): (url: string)
    ensures StartsWith(url, CurrentConfig(env).baseUrl)
    ensures url[|CurrentConfig(env).baseUrl|..] == endpoint
    ensures |url| > |endpoint|
  {
    CurrentConfig(env).baseUrl + endpoint
  }

  /** The last path segment a by-id builder writes for a row id is the text the
      server's `/:id` parameter receives, and it selects exactly that id. */
  lemma ByIdSegment(collection: string, id: nat)
    requires '/' !in collection
    ensures Split(ById("/" + collection, Num(id)), '/') == ["", collection, ToText(Num(id))]
    ensures MatchesId(Str(ToText(Num(id))), id)
  {
    SegmentsOfById(collection, id);
    MatchesTextOfId(id);
  }

  lemma {:induction false} SegmentsOfById(collection: string, id: nat)
    requires '/' !in collection
    ensures Split(ById("/" + collection, Num(id)), '/') == ["", collection, ToText(Num(id))]
  {
    var t := ToText(Num(id));
    assert t == NatToString(id);
    forall k | 0 <= k < |t| ensures t[k] != '/' {
      assert IsDigit(t[k]);
    }
    assert ById("/" + collection, Num(id)) == "" + ['/'] + (collection + ['/'] + t);
    SplitAfterWord("", collection + ['/'] + t, '/');
    SplitAfterWord(collection, t, '/');
    SplitWithoutSeparator(t, '/');
  }

  /** The four by-id builders name their collection and the id. */
  lemma ByIdBuilders(id: nat)
    ensures Split(MasterById(Num(id)), '/') == ["", "masters", ToText(Num(id))]
    ensures Split(ServiceById(Num(id)), '/') == ["", "services", ToText(Num(id))]
    ensures Split(AppointmentById(Num(id)), '/') == ["", "appointments", ToText(Num(id))]
    ensures Split(ClientById(Num(id)), '/') == ["", "clients", ToText(Num(id))]
  {
    assert Split(MasterById(Num(id)), '/') == ["", "masters", ToText(Num(id))] by {
      assert MastersPath == "/" + "masters";
      SegmentsOfById("masters", id);
    }
    assert Split(ServiceById(Num(id)), '/') == ["", "services", ToText(Num(id))] by {
      assert ServicesPath == "/" + "services";
      SegmentsOfById("services", id);
    }
    assert Split(AppointmentById(Num(id)), '/') == ["", "appointments", ToText(Num(id))] by {
      assert AppointmentsPath == "/" + "appointments";
      SegmentsOfById("appointments", id);
    }
    assert Split(ClientById(Num(id)), '/') == ["", "clients", ToText(Num(id))] by {
      assert ClientsPath == "/" + "clients";
      SegmentsOfById("clients", id);
    }
  }
}
