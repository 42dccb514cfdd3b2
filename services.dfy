// routes/services.js: the salon's price list, listed by category and name,
// added to and removed from. Every route runs behind authenticateToken, which
// supplies the salon id.

module Services {
  import opened Js
  import opened Ordering
  import opened Sql
  import opened Http
  import opened Database
  import Appointments

  /** The body of POST /. */
  datatype ServiceRequest = ServiceRequest(
    name: JsValue, description: JsValue, duration: JsValue, price: JsValue, category: JsValue)

  predicate HasRequiredFields(req: ServiceRequest)
  {
    Truthy(req.name) && Truthy(req.duration) && Truthy(req.price)
  }

  /** The row POST / inserts: no description becomes NULL, no category "other". */
  function NewService(id: int, salonId: int, req: ServiceRequest): Service
  {
    Service(
      id, salonId, req.name, Or(req.description, Null), req.duration, req.price,
      Or(req.category, Str(DefaultCategory)), true)
  }

  /** POST /: the reply carries the row as stored. */
  method Create(db: Store, salonId: int, req: ServiceRequest) returns (reply: Reply<Service>)
    requires db.Valid()
    modifies db
    ensures db.Valid()
    ensures db.salons == old(db.salons) && db.masters == old(db.masters)
    ensures db.clients == old(db.clients) && db.appointments == old(db.appointments)
    ensures !HasRequiredFields(req) ==>
      && reply == Fail(400, RequiredFieldsMissing)
      && db.services == old(db.services) && db.lastServiceId == old(db.lastServiceId)
    ensures HasRequiredFields(req) ==>
      var row := NewService(old(db.lastServiceId) + 1, salonId, req);
      && db.services == old(db.services) + [row]
      && db.lastServiceId == row.id
      && reply == Ok(201, row)
  {
    if !HasRequiredFields(req) {
      return Fail(400, RequiredFieldsMissing);
    }
    var id := db.lastServiceId + 1;
    var row := NewService(id, salonId, req);
    KeyedAppend(db.services, ServiceKey, db.lastServiceId, row);
    db.services := db.services + [row];
    db.lastServiceId := id;
    reply := Ok(201, row);
  }

  /** A service just added can be booked by its id, and the public price list shows it. */
  lemma {:induction false} CreatedServiceBookable(services: seq<Service>, id: nat, salonId: nat, req: ServiceRequest,
                                                  booking: Appointments.BookingRequest)
    requires Appointments.HasRequiredFields(booking) && booking.serviceId == Num(id)
    ensures var row := NewService(id, salonId, req);
      && Appointments.CheckBooking(services + [row], salonId, booking).Accept?
      && Appointments.PublicServiceOf(row) in Appointments.PublicServices(services + [row], ToText(Num(salonId)))
  {
    var row := NewService(id, salonId, req);
    assert row in services + [row];
    MatchesTextOfId(salonId);
    assert Appointments.Offered(ToText(Num(salonId)))(row);
  }

  /** The category and the name as their TEXT columns hold them. */
  function CategoryOf(s: Service): SqlValue { TextAffinity(s.category) }
  function NameOf(s: Service): SqlValue { TextAffinity(s.name) }
  function ServiceOwner(s: Service): int { s.salonId }

  function OfSalon(salonId: int): Service -> bool
  {
    (s: Service) => s.salonId == salonId
  }

  /** `ORDER BY category, name`. */
  function ByCategoryThenName(): (Service, Service) -> bool
  {
    ThenBy(ByKey(CategoryOf, Le), ByKey(NameOf, Le))
  }

  lemma ByCategoryThenNameTotal()
    ensures TotalPreorder(ByCategoryThenName())
  {
    LeTotalPreorder();
    ByKeyTotal(CategoryOf, Le);
    ByKeyTotal(NameOf, Le);
    ThenByTotal(ByKey(CategoryOf, Le), ByKey(NameOf, Le));
  }

  /** ByCategoryThenName spelled out on a sorted list. */
  lemma ByCategoryThenNameOrder(rows: seq<Service>)
    requires Sorted(rows, ByCategoryThenName())
    ensures forall i, j :: 0 <= i < j < |rows| ==>
      && Le(CategoryOf(rows[i]), CategoryOf(rows[j]))
      && (Le(CategoryOf(rows[j]), CategoryOf(rows[i])) ==> Le(NameOf(rows[i]), NameOf(rows[j])))
  {
    forall i, j | 0 <= i < j < |rows|
      ensures Le(CategoryOf(rows[i]), CategoryOf(rows[j]))
      ensures Le(CategoryOf(rows[j]), CategoryOf(rows[i])) ==> Le(NameOf(rows[i]), NameOf(rows[j]))
    {
      var a, b := rows[i], rows[j];
      var byCategory, byName := ByKey(CategoryOf, Le), ByKey(NameOf, Le);
      assert ByCategoryThenName()(a, b) == ThenBy(byCategory, byName)(a, b);
      assert byCategory(a, b) == Le(CategoryOf(a), CategoryOf(b)) && byCategory(b, a) == Le(CategoryOf(b), CategoryOf(a));
      assert byName(a, b) == Le(NameOf(a), NameOf(b));
    }
  }

  /** GET /: the salon's services and no others, grouped by category and by name within one. */
  function List(services: seq<Service>, salonId: int): (r: seq<Service>)
    ensures |r| == Count(services, OfSalon(salonId))
    ensures forall s :: s in r <==> s in services && s.salonId == salonId
    ensures forall i, j :: 0 <= i < j < |r| ==>
      && Le(CategoryOf(r[i]), CategoryOf(r[j]))
      && (Le(CategoryOf(r[j]), CategoryOf(r[i])) ==> Le(NameOf(r[i]), NameOf(r[j])))
  {
    ByCategoryThenNameTotal();
    var own := Filter(services, OfSalon(salonId));
    var r := SortBy(own, ByCategoryThenName());
    SameMembers(r, own);
    forall s | s in services && s.salonId == salonId ensures s in own {
      FilterKeeps(services, OfSalon(salonId), s);
    }
    ByCategoryThenNameOrder(r);
    r
  }

  /** `WHERE id = ? AND salon_id = ?` with the path's id. */
  function Target(salonId: int, idText: string): Service -> bool
  {
    Owned(ServiceKey, ServiceOwner, salonId, idText)
  }

  /** DELETE /:id: removes the salon's service with that id, or answers 404 when the
      salon has none. Appointments that name the service stay. */
  method Delete(db: Store, salonId: int, idText: string) returns (reply: Reply<()>)
    requires db.Valid()
    modifies db
    ensures db.Valid()
    ensures db.salons == old(db.salons) && db.masters == old(db.masters)
    ensures db.clients == old(db.clients) && db.appointments == old(db.appointments)
    ensures db.lastServiceId == old(db.lastServiceId)
    ensures db.services == Filter(old(db.services), Not(Target(salonId, idText)))
    ensures reply.Ok? <==> exists s :: s in old(db.services) && MatchesId(Str(idText), s.id) && s.salonId == salonId
    ensures reply.Ok? ==> reply.status == 200 && |db.services| == |old(db.services)| - 1
    ensures reply.Fail? ==> reply == Fail(404, ServiceNotFound) && db.services == old(db.services)
  {
    var kept := Filter(db.services, Not(Target(salonId, idText)));
    DeleteOutcome(db.services, ServiceKey, ServiceOwner, db.lastServiceId, salonId, idText);
    if |kept| == |db.services| {
      return Fail(404, ServiceNotFound);
    }
    db.services := kept;
    reply := Ok(200, ());
  }

  /** Once deleted, a service can no longer be booked under the id that named it. */
  lemma {:induction false} DeletedServiceUnbookable(services: seq<Service>, salonId: int, idText: string,
                                                    booking: Appointments.BookingRequest)
    requires Appointments.HasRequiredFields(booking) && booking.serviceId == Str(idText)
    ensures Appointments.CheckBooking(Filter(services, Not(Target(salonId, idText))), salonId, booking)
      == Refuse(404, ServiceNotFound)
  {
    var kept := Filter(services, Not(Target(salonId, idText)));
    forall s | s in kept ensures !(MatchesId(booking.serviceId, s.id) && s.salonId == salonId) {
      var j :| 0 <= j < |kept| && kept[j] == s;
      NotMeans(Target(salonId, idText), s);
      OwnedMeans(ServiceKey, ServiceOwner, salonId, idText, s);
    }
  }
}
