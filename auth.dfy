// routes/auth.js: salon registration, login, the bearer-token middleware
// and /me. bcrypt and jsonwebtoken are outside the model: a `Crypto` value
// supplies them as functions, and `Sound` states the only facts the
// properties below rely on.

module Auth {
  import opened Optional
  import opened Text
  import opened Js
  import opened Http
  import opened Database
  import opened Sql

  /** bcrypt.hash / bcrypt.compare and jwt.sign / jwt.verify under the server's secret.
      `decode` answers None for a token that fails verification (bad signature, expired). */
  datatype Crypto = Crypto(
    hash: string -> string,
    compare: (string, string) -> bool,
    sign: int -> string,
    decode: string -> Option<int>)

  /** A password matches its own hash; a signed token verifies to the id it carries;
      a JWT is non-empty and has no space in it. */
  ghost predicate Sound(c: Crypto)
  {
    && (forall p :: c.compare(p, c.hash(p)))
    && (forall id :: c.decode(c.sign(id)) == Some(id))
    && (forall id :: c.sign(id) != "" && ' ' !in c.sign(id))
  }

  datatype RegisterRequest = RegisterRequest(
    name: JsValue, address: JsValue, phone: JsValue, email: JsValue, password: JsValue)

  /** The columns /register and /me select: no password. */
  datatype SalonProfile = SalonProfile(
    id: int, name: JsValue, address: JsValue, phone: JsValue, email: JsValue, subscriptionPlan: string)

  /** A salon row with the password removed, as /login and /salon/info answer. */
  datatype SalonData = SalonData(
    id: int, name: JsValue, address: JsValue, phone: JsValue, email: JsValue,
    workHours: string, settings: string, subscriptionPlan: string)

  datatype Session<+S> = Session(token: string, salon: S)

  function Profile(s: Salon): (p: SalonProfile)
    ensures p.id == s.id && p.email == s.email && p.name == s.name
  {
    SalonProfile(s.id, s.name, s.address, s.phone, s.email, s.subscriptionPlan)
  }

  function WithoutPassword(s: Salon): (d: SalonData)
    ensures d.id == s.id && d.email == s.email && d.name == s.name
  {
    SalonData(s.id, s.name, s.address, s.phone, s.email, s.workHours, s.settings, s.subscriptionPlan)
  }

  /** What /register decides before it writes: the password text to hash, or the refusal.
      The e-mail is looked up as text (TEXT affinity), so 5 and "5" are the same
      e-mail. bcrypt refuses a password that is not a string, which ends in the
      catch block. */
  function CheckRegistration(salons: seq<Salon>, req: RegisterRequest): (r: Verdict<string>)
    ensures r.Accept? <==>
      && Truthy(req.name) && Truthy(req.email) && Truthy(req.password)
      && (forall s :: s in salons ==> !TextMatches(s.email, req.email))
      && req.password.Str?
    ensures r.Accept? ==> r.value == req.password.s && r.value != ""
    ensures !(Truthy(req.name) && Truthy(req.email) && Truthy(req.password)) ==>
      r == Refuse(400, RequiredFieldsMissing)
    ensures (Truthy(req.name) && Truthy(req.email) && Truthy(req.password)
      && exists s :: s in salons && TextMatches(s.email, req.email)) ==> r == Refuse(400, EmailTaken)
    ensures r.Refuse? ==> r.status in {400, 500}
  {
    if !Truthy(req.name) || !Truthy(req.email) || !Truthy(req.password) then Refuse(400, RequiredFieldsMissing)
    else if FindSalon(salons, HasEmail(req.email)).Some? then Refuse(400, EmailTaken)
    else if !req.password.Str? then Refuse(500, ServerError)
    else Accept(req.password.s)
  }

  /** The row /register inserts: the hash, never the password, and the column defaults. */
  function NewSalon(id: int, req: RegisterRequest, digest: string): Salon
  {
    Salon(id, req.name, req.address, req.phone, req.email, digest, DefaultWorkHours, DefaultSettings, DefaultPlan)
  }

  /** POST /register. */
  method Register(db: Store, req: RegisterRequest, crypto: Crypto) returns (reply: Reply<Session<SalonProfile>>)
    requires db.Valid()
    modifies db
    ensures db.Valid()
    ensures db.masters == old(db.masters) && db.services == old(db.services)
    ensures db.clients == old(db.clients) && db.appointments == old(db.appointments)
    ensures var check := CheckRegistration(old(db.salons), req);
      if check.Refuse? then
        && reply == Fail(check.status, check.reason)
        && db.salons == old(db.salons) && db.lastSalonId == old(db.lastSalonId)
      else
        var row := NewSalon(old(db.lastSalonId) + 1, req, crypto.hash(check.value));
        && db.salons == old(db.salons) + [row]
        && db.lastSalonId == row.id
        && reply == Ok(201, Session(crypto.sign(row.id), Profile(row)))
  {
    var check := CheckRegistration(db.salons, req);
    if check.Refuse? {
      return Fail(check.status, check.reason);
    }
    var id := db.lastSalonId + 1;
    var row := NewSalon(id, req, crypto.hash(check.value));
    KeyedAppend(db.salons, SalonKey, db.lastSalonId, row);
    EmailsUniqueAppend(db.salons, row);
    db.salons := db.salons + [row];
    db.lastSalonId := id;
    reply := Ok(201, Session(crypto.sign(id), Profile(row)));
  }

  /** POST /login. The e-mail is looked up as text, as at registration. */
  function Login(salons: seq<Salon>, email: JsValue, password: JsValue, crypto: Crypto): (r: Reply<Session<SalonData>>)
    ensures !Truthy(email) || !Truthy(password) ==> r == Fail(400, CredentialsRequired)
    ensures Truthy(email) && Truthy(password) && (forall s :: s in salons ==> !TextMatches(s.email, email)) ==>
      r == Fail(401, WrongEmailOrPassword)
    ensures r.Ok? ==> password.Str? && exists s :: (s in salons && TextMatches(s.email, email)
      && crypto.compare(password.s, s.password)
      && r == Ok(200, Session(crypto.sign(s.id), WithoutPassword(s))))
    ensures r.Fail? ==> r.status in {400, 401, 500}
  {
    if !Truthy(email) || !Truthy(password) then Fail(400, CredentialsRequired)
    else match FindSalon(salons, HasEmail(email))
      case None => Fail(401, WrongEmailOrPassword)
      case Some(s) =>
        if !password.Str? then Fail(500, ServerError)
        else if !crypto.compare(password.s, s.password) then Fail(401, WrongEmailOrPassword)
        else Ok(200, Session(crypto.sign(s.id), WithoutPassword(s)))
  }

  /** An unknown email and a wrong password get the same reply. */
  lemma LoginRefusalsAlike(salons: seq<Salon>, unknown: JsValue, known: Salon, password: string, crypto: Crypto)
    requires EmailsUnique(salons) && known in salons && Truthy(known.email)
    requires Truthy(unknown) && forall s :: s in salons ==> !TextMatches(s.email, unknown)
    requires password != "" && !crypto.compare(password, known.password)
    ensures Login(salons, unknown, Str(password), crypto) == Login(salons, known.email, Str(password), crypto)
    ensures Login(salons, unknown, Str(password), crypto) == Fail(401, WrongEmailOrPassword)
  {
    TextMatchesEquivalence(known.email, known.email, known.email);
    FindSalonByEmailUnique(salons, known, known.email);
  }

  /** A salon registered with a password can log in with it, under any e-mail that
      matches its own as text, and the token names the salon. */
  lemma LoginWithRegisteredPassword(salons: seq<Salon>, s: Salon, email: JsValue, password: string, crypto: Crypto)
    requires Sound(crypto) && EmailsUnique(salons) && s in salons
    requires Truthy(email) && TextMatches(s.email, email)
    requires password != "" && s.password == crypto.hash(password)
    ensures var r := Login(salons, email, Str(password), crypto);
      r.Ok? && crypto.decode(r.value.token) == Some(s.id) && r.value.salon == WithoutPassword(s)
  {
    FindSalonByEmailUnique(salons, s, email);
  }

  /** `authHeader && authHeader.split(' ')[1]`: the second space-separated word, if any,
      which is the text between the first space and the next one (or the end). */
  function BearerToken(header: Option<string>): (t: Option<string>)
    ensures t.Some? <==> header.Some? && ' ' in header.value
    ensures t.Some? ==> var h := header.value; var after := h[IndexOf(h, ' ') + 1..];
      t.value == after[..IndexOf(after, ' ')]
  {
    if header.None? || header.value == "" then None
    else
      var h := header.value;
      var parts := Split(h, ' ');
      SplitAtFirst(h, ' ');
      if |parts| < 2 then None
      else
        SplitAtFirst(h[IndexOf(h, ' ') + 1..], ' ');
        Some(parts[1])
  }

  /** What authenticateToken does with a request. */
  datatype Gate = Denied(status: int, reason: Reason) | Granted(salonId: int)

  /** The middleware: 401 without a token, 403 when it fails verification,
      otherwise the salon id the token carries. */
  function Authenticate(header: Option<string>, crypto: Crypto): (g: Gate)
    ensures g.Denied? && g.status == 401 <==> BearerToken(header).None? || BearerToken(header) == Some("")
    ensures g == Denied(403, TokenInvalid) <==>
      exists t :: BearerToken(header) == Some(t) && t != "" && crypto.decode(t).None?
    ensures g.Granted? ==> crypto.decode(BearerToken(header).value) == Some(g.salonId)
    ensures g.Denied? ==> g.status in {401, 403}
  {
    match BearerToken(header)
    case None => Denied(401, TokenMissing)
    case Some(t) =>
      if t == "" then Denied(401, TokenMissing)
      else match crypto.decode(t)
        case None => Denied(403, TokenInvalid)
        case Some(id) => Granted(id)
  }

  /** A header `<scheme> <token>`, such as the `Bearer <token>` the client sends, hands
      the server that token. */
  lemma BearerTokenOfHeader(scheme: string, token: string)
    requires ' ' !in scheme && ' ' !in token
    ensures BearerToken(Some(scheme + " " + token)) == Some(token)
  {
    SplitAfterWord(scheme, token, ' ');
    SplitWithoutSeparator(token, ' ');
  }

  /** A token issued at login or registration opens the gate for its salon. */
  lemma AuthenticateIssuedToken(id: int, crypto: Crypto)
    requires Sound(crypto)
    ensures Authenticate(Some("Bearer " + crypto.sign(id)), crypto) == Granted(id)
  {
    assert "Bearer " + crypto.sign(id) == "Bearer" + " " + crypto.sign(id);
    BearerTokenOfHeader("Bearer", crypto.sign(id));
  }

  /** A header with no space, such as a bare token, is treated as having no token. */
  lemma AuthenticateWithoutScheme(header: string, crypto: Crypto)
    requires ' ' !in header
    ensures Authenticate(Some(header), crypto) == Denied(401, TokenMissing)
  {
    if header != "" {
      SplitWithoutSeparator(header, ' ');
    }
  }

  /** GET /me. */
  function Me(salons: seq<Salon>, salonId: int): (r: Reply<SalonProfile>)
    ensures r.Fail? <==> forall s :: s in salons ==> s.id != salonId
    ensures r.Fail? ==> r == Fail(404, SalonNotFound)
    ensures r.Ok? ==> r.status == 200 && exists s :: s in salons && s.id == salonId && r.value == Profile(s)
  {
    match FindSalon(salons, HasId(salonId))
    case None => Fail(404, SalonNotFound)
    case Some(s) => Ok(200, Profile(s))
  }
}
