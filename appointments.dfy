// routes/appointments.js: the salon's appointment book (listing and booking,
// behind the token check) and the three public routes the online booking page
// reads without a token.

module Appointments {
  import opened Optional
  import opened Text
  import opened Js
  import opened Ordering
  import opened Sql
  import opened Clock
  import opened Http
  import opened Database
  import Auth

  /** What the router-level middleware lets through. */
  datatype Access = Open | Checked(gate: Auth.Gate)

  /** Paths under `/public/` skip authenticateToken; every other path goes through it. */
  function Admission(path: string, header: Option<string>, crypto: Auth.Crypto): (a: Access)
    ensures a.Open? <==> StartsWith(path, "/public/")
    ensures a.Checked? ==> a.gate == Auth.Authenticate(header, crypto)
  {
    if StartsWith(path, "/public/") then Open else Checked(Auth.Authenticate(header, crypto))
  }

  /** The public booking routes need no token at all, while the appointment book refuses
      a request without one. */
  lemma PublicRoutesOpen(salonId: string, route: string, crypto: Auth.Crypto)
    ensures Admission("/public/" + salonId + "/" + route, None, crypto) == Open
    ensures Admission("/", None, crypto) == Checked(Auth.Denied(401, TokenMissing))
  {
    var path := "/public/" + salonId + "/" + route;
    assert path[..|"/public/"|] == "/public/";
  }

  /** The body of POST /. */
  datatype BookingRequest = BookingRequest(
    clientId: JsValue, masterId: JsValue, serviceId: JsValue,
    date: JsValue, startTime: JsValue, notes: JsValue, price: JsValue)

  predicate HasRequiredFields(req: BookingRequest)
  {
    Truthy(req.clientId) && Truthy(req.masterId) && Truthy(req.serviceId)
    && Truthy(req.date) && Truthy(req.startTime)
  }

  /** What POST / decides before it writes: the booked service, or the refusal.
      Neither the master's calendar nor the owner of the client and master is consulted. */
  function CheckBooking(services: seq<Service>, salonId: int, req: BookingRequest): (v: Verdict<Service>)
    ensures v == Refuse(400, RequiredFieldsMissing) <==> !HasRequiredFields(req)
    ensures v.Accept? <==> (HasRequiredFields(req)
      && exists s :: s in services && MatchesId(req.serviceId, s.id) && s.salonId == salonId)
    ensures v.Accept? ==>
      v.value in services && MatchesId(req.serviceId, v.value.id) && v.value.salonId == salonId
    ensures v.Refuse? && HasRequiredFields(req) ==> v == Refuse(404, ServiceNotFound)
  {
    if !HasRequiredFields(req) then Refuse(400, RequiredFieldsMissing)
    else
      var own := Filter(services, (s: Service) => s.salonId == salonId);
      var found := FindById(own, ServiceKey, req.serviceId);
      if found.None? then
        assert forall s :: s in services && s.salonId == salonId ==> s in own by {
          forall s | s in services && s.salonId == salonId ensures s in own {
            FilterKeeps(services, (s: Service) => s.salonId == salonId, s);
          }
        }
        Refuse(404, ServiceNotFound)
      else Accept(found.value)
  }

  /** A service id sent as a one-element array, `[5]` or `["5"]`, is bound as the
      element's text, so the booking is decided as for the element itself. */
  lemma BookingWithArrayId(services: seq<Service>, salonId: int, req: BookingRequest, x: JsValue)
    requires (x.Str? || x.Num?) && Truthy(x) && req.serviceId == Arr([x])
    ensures CheckBooking(services, salonId, req) == CheckBooking(services, salonId, req.(serviceId := x))
  {
    AsIntegerOfSingleton(x);
    FindByIdSameInteger(Filter(services, (s: Service) => s.salonId == salonId), ServiceKey, Arr([x]), x);
  }

  /** The row POST / inserts for a booked service, on a server whose time zone is
      `zone` minutes east of UTC. */
  function NewAppointment(id: int, salonId: int, req: BookingRequest, service: Service, zone: UtcOffset): Appointment
  {
    Appointment(
      id, salonId, req.masterId, req.serviceId, req.clientId, req.date, req.startTime,
      EndTime(req.date, req.startTime, service.duration, zone),
      StatusConfirmed, Or(req.notes, Str("")), Or(req.price, service.price))
  }

  /** The stored appointment is confirmed, belongs to the caller's salon, keeps the
      request's ids, date and start verbatim, keeps the service's price unless the
      request gave a truthy one, and ends the service's duration after its start on
      the clock, wrapping past midnight without moving the date. */
  lemma {:induction false} BookedAppointment(id: int, salonId: int, req: BookingRequest, service: Service,
                                             date: string, start: string, duration: int, zone: UtcOffset)
    requires req.date == Str(date) && req.startTime == Str(start) && service.duration == Num(duration)
    requires IsDateForm(date) && IsClock(start) && -LongestDuration <= duration <= LongestDuration
    ensures var a := NewAppointment(id, salonId, req, service, zone);
      && a.status == StatusConfirmed && a.salonId == salonId
      && a.date == req.date && a.startTime == req.startTime
      && a.masterId == req.masterId && a.clientId == req.clientId && a.serviceId == req.serviceId
      && a.price == (if Truthy(req.price) then req.price else service.price)
      && a.notes == (if Truthy(req.notes) then req.notes else Str(""))
      && IsClock(a.endTime)
      && MinuteOfDay(a.endTime) == (MinuteOfDay(start) + duration) % MinutesPerDay
  {
    EndTimeOfWellFormed(date, start, duration, zone);
  }

  /** POST /: book an appointment; the reply carries the new id. */
  method Create(db: Store, salonId: int, req: BookingRequest, zone: UtcOffset) returns (reply: Reply<int>)
    requires db.Valid()
    modifies db
    ensures db.Valid()
    ensures db.salons == old(db.salons) && db.masters == old(db.masters)
    ensures db.services == old(db.services) && db.clients == old(db.clients)
    ensures var v := CheckBooking(old(db.services), salonId, req);
      if v.Refuse? then
        && reply == Fail(v.status, v.reason)
        && db.appointments == old(db.appointments) && db.lastAppointmentId == old(db.lastAppointmentId)
      else
        var row := NewAppointment(old(db.lastAppointmentId) + 1, salonId, req, v.value, zone);
        && db.appointments == old(db.appointments) + [row]
        && db.lastAppointmentId == row.id
        && reply == Ok(201, row.id)
  {
    var v := CheckBooking(db.services, salonId, req);
    if v.Refuse? {
      return Fail(v.status, v.reason);
    }
    var id := db.lastAppointmentId + 1;
    var row := NewAppointment(id, salonId, req, v.value, zone);
    KeyedAppend(db.appointments, AppointmentKey, db.lastAppointmentId, row);
    db.appointments := db.appointments + [row];
    db.lastAppointmentId := id;
    reply := Ok(201, id);
  }

  /** There is no overlap check: the same master booked twice for the same slot
      gives two confirmed appointments. */
  method DoubleBooking(db: Store, salonId: int, req: BookingRequest, zone: UtcOffset)
    returns (first: Reply<int>, second: Reply<int>)
    requires db.Valid() && CheckBooking(db.services, salonId, req).Accept?
    modifies db
    ensures db.Valid()
    ensures first.Ok? && second.Ok? && first.value != second.value
    ensures |db.appointments| == |old(db.appointments)| + 2
    ensures var a, b := db.appointments[|db.appointments| - 2], db.appointments[|db.appointments| - 1];
      && a.masterId == b.masterId == req.masterId
      && a.date == b.date && a.startTime == b.startTime && a.endTime == b.endTime
      && a.status == b.status == StatusConfirmed
  {
    first := Create(db, salonId, req, zone);
    second := Create(db, salonId, req, zone);
  }

  /** One row of GET /: the appointment with the LEFT JOINed names. */
  datatype AppointmentView = AppointmentView(
    appointment: Appointment,
    clientName: JsValue, clientPhone: JsValue, serviceName: JsValue, masterName: JsValue)

  /** The LEFT JOINs match on id alone, not on the salon; a missing row gives NULLs. */
  function View(a: Appointment, clients: seq<Client>, services: seq<Service>, masters: seq<Master>): (v: AppointmentView)
    ensures v.appointment == a
    ensures (forall c :: c in clients ==> !MatchesId(a.clientId, c.id)) ==> v.clientName == Null && v.clientPhone == Null
    ensures (exists c :: c in clients && MatchesId(a.clientId, c.id)) ==>
      exists c :: c in clients && MatchesId(a.clientId, c.id) && v.clientName == c.name && v.clientPhone == c.phone
    ensures (forall s :: s in services ==> !MatchesId(a.serviceId, s.id)) ==> v.serviceName == Null
    ensures (exists s :: s in services && MatchesId(a.serviceId, s.id)) ==>
      exists s :: s in services && MatchesId(a.serviceId, s.id) && v.serviceName == s.name
    ensures (forall m :: m in masters ==> !MatchesId(a.masterId, m.id)) ==> v.masterName == Null
    ensures (exists m :: m in masters && MatchesId(a.masterId, m.id)) ==>
      exists m :: m in masters && MatchesId(a.masterId, m.id) && v.masterName == m.name
  {
    var c := FindById(clients, ClientKey, a.clientId);
    var s := FindById(services, ServiceKey, a.serviceId);
    var m := FindById(masters, MasterKey, a.masterId);
    AppointmentView(
      a,
      if c.Some? then c.value.name else Null,
      if c.Some? then c.value.phone else Null,
      if s.Some? then s.value.name else Null,
      if m.Some? then m.value.name else Null)
  }

  /** The date and the start as their DATE and TIME columns hold them. */
  function DateOf(a: Appointment): SqlValue { NumericAffinity(a.date) }
  function StartOf(a: Appointment): SqlValue { NumericAffinity(a.startTime) }

  /** `ORDER BY a.appointment_date DESC, a.start_time DESC`. */
  function NewestFirst(): (Appointment, Appointment) -> bool
  {
    ThenBy(Descending(ByKey(DateOf, Le)), Descending(ByKey(StartOf, Le)))
  }

  lemma NewestFirstTotal()
    ensures TotalPreorder(NewestFirst())
  {
    LeTotalPreorder();
    ByKeyTotal(DateOf, Le);
    ByKeyTotal(StartOf, Le);
    DescendingTotal(ByKey(DateOf, Le));
    DescendingTotal(ByKey(StartOf, Le));
    ThenByTotal(Descending(ByKey(DateOf, Le)), Descending(ByKey(StartOf, Le)));
  }

  function OfSalon(salonId: int): Appointment -> bool
  {
    (a: Appointment) => a.salonId == salonId
  }

  /** NewestFirst spelled out: later dates first, and later start times first within a date. */
  lemma NewestFirstOrder(rows: seq<Appointment>)
    requires Sorted(rows, NewestFirst())
    ensures forall i, j :: 0 <= i < j < |rows| ==>
      && Le(DateOf(rows[j]), DateOf(rows[i]))
      && (Le(DateOf(rows[i]), DateOf(rows[j])) ==> Le(StartOf(rows[j]), StartOf(rows[i])))
  {
    forall i, j | 0 <= i < j < |rows|
      ensures Le(DateOf(rows[j]), DateOf(rows[i]))
      ensures Le(DateOf(rows[i]), DateOf(rows[j])) ==> Le(StartOf(rows[j]), StartOf(rows[i]))
    {
      var a, b := rows[i], rows[j];
      var byDate, byStart := Descending(ByKey(DateOf, Le)), Descending(ByKey(StartOf, Le));
      assert NewestFirst()(a, b) == ThenBy(byDate, byStart)(a, b);
      assert byDate(a, b) == Le(DateOf(b), DateOf(a)) && byDate(b, a) == Le(DateOf(a), DateOf(b));
      assert byStart(a, b) == Le(StartOf(b), StartOf(a));
    }
  }

  /** `WHERE a.salon_id = ? ORDER BY a.appointment_date DESC, a.start_time DESC`:
      every appointment of the salon and no other, newest date first and, within a
      date, latest start first. */
  function Book(appointments: seq<Appointment>, salonId: int): (rows: seq<Appointment>)
    ensures |rows| == Count(appointments, OfSalon(salonId))
    ensures multiset(rows) == multiset(Filter(appointments, OfSalon(salonId)))
    ensures forall a :: a in rows <==> a in appointments && a.salonId == salonId
    ensures forall i, j :: 0 <= i < j < |rows| ==>
      && Le(DateOf(rows[j]), DateOf(rows[i]))
      && (Le(DateOf(rows[i]), DateOf(rows[j])) ==> Le(StartOf(rows[j]), StartOf(rows[i])))
  {
    NewestFirstTotal();
    var own := Filter(appointments, OfSalon(salonId));
    var rows := SortBy(own, NewestFirst());
    SameMembers(rows, own);
    forall a | a in appointments && a.salonId == salonId ensures a in own {
      FilterKeeps(appointments, OfSalon(salonId), a);
    }
    NewestFirstOrder(rows);
    rows
  }

  /** GET /: the salon's appointment book, each row with the names the joins find. */
  function List(appointments: seq<Appointment>, clients: seq<Client>, services: seq<Service>,
                masters: seq<Master>, salonId: int): (r: seq<AppointmentView>)
    ensures |r| == |Book(appointments, salonId)|
    ensures forall k :: 0 <= k < |r| ==> r[k] == View(Book(appointments, salonId)[k], clients, services, masters)
  {
    var rows := Book(appointments, salonId);
    seq(|rows|, k requires 0 <= k < |rows| => View(rows[k], clients, services, masters))
  }

  /** The columns /public/:salonId/info selects. */
  datatype PublicSalon = PublicSalon(id: int, name: JsValue, address: JsValue, phone: JsValue, workHours: string)

  /** GET /public/:salonId/info: the salon the path names, or 404. */
  function PublicInfo(salons: seq<Salon>, salonId: string): (r: Reply<PublicSalon>)
    ensures r.Fail? <==> forall s :: s in salons ==> !MatchesId(Str(salonId), s.id)
    ensures r.Fail? ==> r == Fail(404, SalonNotFound)
    ensures r.Ok? ==> r.status == 200 && exists s :: (s in salons && MatchesId(Str(salonId), s.id)
      && r.value == PublicSalon(s.id, s.name, s.address, s.phone, s.workHours))
  {
    match FindById(salons, SalonKey, Str(salonId))
    case None => Fail(404, SalonNotFound)
    case Some(s) => Ok(200, PublicSalon(s.id, s.name, s.address, s.phone, s.workHours))
  }

  /** The booking page of a salon, reached through the decimal id in its link, shows that salon. */
  lemma PublicInfoOfLink(salons: seq<Salon>, last: int, s: Salon)
    requires Keyed(salons, SalonKey, last) && s in salons && s.id >= 0
    ensures PublicInfo(salons, ToText(Num(s.id))) == Ok(200, PublicSalon(s.id, s.name, s.address, s.phone, s.workHours))
  {
    MatchesTextOfId(s.id);
    FindByIdKeyed(salons, SalonKey, last, Str(ToText(Num(s.id))), s);
  }

  /** The columns /public/:salonId/services selects. */
  datatype PublicService = PublicService(id: int, name: JsValue, description: JsValue, duration: JsValue, price: JsValue)

  function Offered(salonId: string): Service -> bool
  {
    (s: Service) => MatchesId(Str(salonId), s.salonId) && s.isActive
  }

  function PublicServiceOf(s: Service): PublicService
  {
    PublicService(s.id, s.name, s.description, s.duration, s.price)
  }

  /** GET /public/:salonId/services: the salon's active services, in table order. */
  function PublicServices(services: seq<Service>, salonId: string): (r: seq<PublicService>)
    ensures |r| == Count(services, Offered(salonId))
    ensures forall v :: v in r <==>
      exists s :: s in services && MatchesId(Str(salonId), s.salonId) && s.isActive && v == PublicServiceOf(s)
  {
    var r := Project(Filter(services, Offered(salonId)), PublicServiceOf);
    ProjectFilter(services, Offered(salonId), PublicServiceOf);
    r
  }

  /** The columns /public/:salonId/masters selects. */
  datatype PublicMaster = PublicMaster(id: int, name: JsValue, rating: JsValue)

  function Bookable(salonId: string): Master -> bool
  {
    (m: Master) => MatchesId(Str(salonId), m.salonId) && m.isActive
  }

  function PublicMasterOf(m: Master): PublicMaster
  {
    PublicMaster(m.id, m.name, m.rating)
  }

  /** GET /public/:salonId/masters: the salon's active masters, in table order. */
  function PublicMasters(masters: seq<Master>, salonId: string): (r: seq<PublicMaster>)
    ensures |r| == Count(masters, Bookable(salonId))
    ensures forall v :: v in r <==>
      exists m :: m in masters && MatchesId(Str(salonId), m.salonId) && m.isActive
        && v == PublicMaster(m.id, m.name, m.rating)
  {
    var r := Project(Filter(masters, Bookable(salonId)), PublicMasterOf);
    ProjectFilter(masters, Bookable(salonId), PublicMasterOf);
    r
  }
}
