// routes/salon.js: the salon's own profile and the dashboard figures. Both
// routes run behind authenticateToken, which supplies the salon id. The
// dates the figures use are computed from the server clock; here they are
// parameters: `today` and `weekAgo` as `YYYY-MM-DD` texts.

module SalonRoutes {
  import opened Optional
  import opened Js
  import opened Ordering
  import opened Sql
  import opened Http
  import opened Database
  import Auth
  import Clients
  import Text

  /** GET /info: the salon's row without its password, or 404. */
  function Info(salons: seq<Salon>, salonId: int): (r: Reply<Auth.SalonData>)
    ensures r.Fail? <==> forall s :: s in salons ==> s.id != salonId
    ensures r.Fail? ==> r == Fail(404, SalonNotFound)
    ensures r.Ok? ==> r.status == 200 && exists s :: s in salons && s.id == salonId && r.value == Auth.WithoutPassword(s)
  {
    match FindSalon(salons, HasId(salonId))
    case None => Fail(404, SalonNotFound)
    case Some(s) => Ok(200, Auth.WithoutPassword(s))
  }

  /** The four dashboard figures. */
  datatype SalonStats = SalonStats(todayAppointments: nat, weekAppointments: nat, weekRevenue: int, totalClients: nat)

  /** `salon_id = ? AND appointment_date = ?`; the column is declared DATE, so
      both sides are compared under NUMERIC affinity. */
  function On(salonId: int, today: string): Appointment -> bool
  {
    (a: Appointment) => a.salonId == salonId && DateEquals(a.date, today)
  }

  /** `salon_id = ? AND appointment_date >= ?` */
  function Since(salonId: int, weekAgo: string): Appointment -> bool
  {
    (a: Appointment) => a.salonId == salonId && DateAtLeast(a.date, weekAgo)
  }

  /** `salon_id = ? AND appointment_date >= ? AND status = 'completed'` */
  function CompletedSince(salonId: int, weekAgo: string): Appointment -> bool
  {
    (a: Appointment) => a.salonId == salonId && DateAtLeast(a.date, weekAgo) && a.status == StatusCompleted
  }

  /** What a stored price adds to SUM(price): its number, and nothing for NULL or
      text that is not a number. */
  function Amount(price: JsValue): int
  {
    match AsInteger(price)
    case Some(n) => n
    case None => 0
  }

  /** `SUM(price) ... || 0`: an empty sum is NULL, which the route turns into 0. */
  function Revenue(rows: seq<Appointment>): int
  {
    if rows == [] then 0 else Amount(rows[0].price) + Revenue(rows[1..])
  }

  lemma {:induction false} RevenueAppend(a: seq<Appointment>, b: seq<Appointment>)
    ensures Revenue(a + b) == Revenue(a) + Revenue(b)
  {
    if a == [] {
      assert a + b == b;
    } else {
      assert (a + b)[0] == a[0] && (a + b)[1..] == a[1..] + b;
      RevenueAppend(a[1..], b);
    }
  }

  /** GET /stats. */
  function Stats(appointments: seq<Appointment>, clients: seq<Client>, salonId: int,
                 today: string, weekAgo: string): (s: SalonStats)
    ensures s.todayAppointments == |Filter(appointments, On(salonId, today))|
    ensures s.weekAppointments == |Filter(appointments, Since(salonId, weekAgo))|
    ensures s.totalClients == |Filter(clients, Clients.OfSalon(salonId))|
  {
    SalonStats(
      Count(appointments, On(salonId, today)),
      Count(appointments, Since(salonId, weekAgo)),
      Revenue(Filter(appointments, CompletedSince(salonId, weekAgo))),
      Count(clients, Clients.OfSalon(salonId)))
  }

  /** While the week starts no later than today, as SQLite compares the two
      parameters, the week's count includes today's. */
  lemma WeekCountsToday(appointments: seq<Appointment>, clients: seq<Client>, salonId: int,
                        today: string, weekAgo: string)
    requires Le(NumericAffinity(Str(weekAgo)), NumericAffinity(Str(today)))
    ensures var s := Stats(appointments, clients, salonId, today, weekAgo);
      s.todayAppointments <= s.weekAppointments
  {
    forall a: Appointment | On(salonId, today)(a) ensures Since(salonId, weekAgo)(a) {
      DateEqualsIsAtLeast(a.date, today, weekAgo);
    }
    CountMonotone(appointments, On(salonId, today), Since(salonId, weekAgo));
  }

  /** The route's own parameters are ISO dates, a week apart: the week's count
      includes today's. */
  lemma WeekCountsTodayOfIsoDates(appointments: seq<Appointment>, clients: seq<Client>, salonId: int,
                                  today: string, weekAgo: string)
    requires IsIsoDate(today) && IsIsoDate(weekAgo) && Text.LexLe(weekAgo, today)
    ensures var s := Stats(appointments, clients, salonId, today, weekAgo);
      s.todayAppointments <= s.weekAppointments
  {
    IsoDatesCompareAsText(weekAgo, today);
    WeekCountsToday(appointments, clients, salonId, today, weekAgo);
  }

  /** An appointment booked with a date of digits only, such as `20240115`, is
      stored as a number, which sorts before every ISO date: no figure counts it. */
  lemma {:induction false} DecimalDateUncounted(appointments: seq<Appointment>, clients: seq<Client>, salonId: int,
                                                today: string, weekAgo: string, a: Appointment, d: string)
    requires IsIsoDate(today) && IsIsoDate(weekAgo) && Text.IsDecimal(d) && a.date == Str(d)
    ensures Stats(appointments + [a], clients, salonId, today, weekAgo)
         == Stats(appointments, clients, salonId, today, weekAgo)
  {
    IsoDateStaysText(today);
    IsoDateStaysText(weekAgo);
    DecimalDateBeforeText(d, today);
    DecimalDateBeforeText(d, weekAgo);
    FilterAppend(appointments, [a], CompletedSince(salonId, weekAgo));
    FilterAppend(appointments, [a], Since(salonId, weekAgo));
    FilterAppend(appointments, [a], On(salonId, today));
    assert Filter([a], CompletedSince(salonId, weekAgo)) == [];
    assert Filter([a], Since(salonId, weekAgo)) == [];
    assert Filter([a], On(salonId, today)) == [];
    assert Filter(appointments, CompletedSince(salonId, weekAgo)) + [] == Filter(appointments, CompletedSince(salonId, weekAgo));
    assert Filter(appointments, Since(salonId, weekAgo)) + [] == Filter(appointments, Since(salonId, weekAgo));
    assert Filter(appointments, On(salonId, today)) + [] == Filter(appointments, On(salonId, today));
  }

  /** The client total is the length of the client list the salon sees. */
  lemma TotalClientsIsListLength(appointments: seq<Appointment>, clients: seq<Client>, salonId: int,
                                 today: string, weekAgo: string)
    ensures Stats(appointments, clients, salonId, today, weekAgo).totalClients == |Clients.List(clients, salonId)|
  {
  }

  /** Without a completed appointment since the start of the week, the revenue is 0. */
  lemma RevenueWithoutCompleted(appointments: seq<Appointment>, clients: seq<Client>, salonId: int,
                                today: string, weekAgo: string)
    requires forall k :: 0 <= k < |appointments| ==>
      appointments[k].status != StatusCompleted || appointments[k].salonId != salonId
    ensures Stats(appointments, clients, salonId, today, weekAgo).weekRevenue == 0
  {
    FilterNone(appointments, CompletedSince(salonId, weekAgo));
  }

  /** A new booking is confirmed, not completed: it counts in the week's appointments
      when it falls in the week, but leaves the revenue alone. */
  lemma {:induction false} BookingLeavesRevenue(appointments: seq<Appointment>, clients: seq<Client>, salonId: int,
                                                today: string, weekAgo: string, a: Appointment)
    requires a.status == StatusConfirmed
    ensures var before := Stats(appointments, clients, salonId, today, weekAgo);
      var after := Stats(appointments + [a], clients, salonId, today, weekAgo);
      && after.weekRevenue == before.weekRevenue
      && after.weekAppointments == before.weekAppointments
           + (if a.salonId == salonId && DateAtLeast(a.date, weekAgo) then 1 else 0)
      && after.todayAppointments == before.todayAppointments
           + (if a.salonId == salonId && DateEquals(a.date, today) then 1 else 0)
  {
    FilterAppend(appointments, [a], CompletedSince(salonId, weekAgo));
    FilterAppend(appointments, [a], Since(salonId, weekAgo));
    FilterAppend(appointments, [a], On(salonId, today));
    assert Filter([a], CompletedSince(salonId, weekAgo)) == [];
    assert Filter(appointments, CompletedSince(salonId, weekAgo)) + [] == Filter(appointments, CompletedSince(salonId, weekAgo));
  }

  /** A completed appointment of the week adds its price to the revenue. */
  lemma {:induction false} CompletedAddsPrice(appointments: seq<Appointment>, clients: seq<Client>, salonId: int,
                                              today: string, weekAgo: string, a: Appointment)
    requires a.salonId == salonId && DateAtLeast(a.date, weekAgo) && a.status == StatusCompleted
    ensures Stats(appointments + [a], clients, salonId, today, weekAgo).weekRevenue
         == Stats(appointments, clients, salonId, today, weekAgo).weekRevenue + Amount(a.price)
  {
    var p := CompletedSince(salonId, weekAgo);
    FilterAppend(appointments, [a], p);
    assert Filter([a], p) == [a];
    RevenueAppend(Filter(appointments, p), [a]);
  }
}
