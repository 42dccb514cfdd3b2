// routes/clients.js: the salon's client card index, listed by name, added to
// and removed from. Every route runs behind authenticateToken, which supplies
// the salon id.

module Clients {
  import opened Js
  import opened Ordering
  import opened Sql
  import opened Http
  import opened Database

  /** The body of POST /. */
  datatype ClientRequest = ClientRequest(
    name: JsValue, phone: JsValue, email: JsValue, birthday: JsValue, notes: JsValue)

  /** The row POST / inserts: empty optional fields become NULL, and the visit
      counters start at their column defaults. */
  function NewClient(id: int, salonId: int, req: ClientRequest): Client
  {
    Client(
      id, salonId, req.name, req.phone, Or(req.email, Null), Or(req.birthday, Null),
      Or(req.notes, Null), 0, 0, Null)
  }

  /** POST /: the reply carries the row as stored. */
  method Create(db: Store, salonId: int, req: ClientRequest) returns (reply: Reply<Client>)
    requires db.Valid()
    modifies db
    ensures db.Valid()
    ensures db.salons == old(db.salons) && db.masters == old(db.masters)
    ensures db.services == old(db.services) && db.appointments == old(db.appointments)
    ensures !(Truthy(req.name) && Truthy(req.phone)) ==>
      && reply == Fail(400, NameAndPhoneRequired)
      && db.clients == old(db.clients) && db.lastClientId == old(db.lastClientId)
    ensures Truthy(req.name) && Truthy(req.phone) ==>
      var row := NewClient(old(db.lastClientId) + 1, salonId, req);
      && db.clients == old(db.clients) + [row]
      && db.lastClientId == row.id
      && reply == Ok(201, row)
  {
    if !Truthy(req.name) || !Truthy(req.phone) {
      return Fail(400, NameAndPhoneRequired);
    }
    var id := db.lastClientId + 1;
    var row := NewClient(id, salonId, req);
    KeyedAppend(db.clients, ClientKey, db.lastClientId, row);
    db.clients := db.clients + [row];
    db.lastClientId := id;
    reply := Ok(201, row);
  }

  /** The name as the TEXT column holds it. */
  function NameOf(c: Client): SqlValue { TextAffinity(c.name) }
  function ClientOwner(c: Client): int { c.salonId }

  function OfSalon(salonId: int): Client -> bool
  {
    (c: Client) => c.salonId == salonId
  }

  /** GET /: `WHERE salon_id = ? ORDER BY name`: the salon's clients and no others,
      in name order. */
  function List(clients: seq<Client>, salonId: int): (r: seq<Client>)
    ensures |r| == Count(clients, OfSalon(salonId))
    ensures forall c :: c in r <==> c in clients && c.salonId == salonId
    ensures forall i, j :: 0 <= i < j < |r| ==> Le(NameOf(r[i]), NameOf(r[j]))
  {
    LeTotalPreorder();
    ByKeyTotal(NameOf, Le);
    var own := Filter(clients, OfSalon(salonId));
    var r := SortBy(own, ByKey(NameOf, Le));
    SameMembers(r, own);
    forall c | c in clients && c.salonId == salonId ensures c in own {
      FilterKeeps(clients, OfSalon(salonId), c);
    }
    forall i, j | 0 <= i < j < |r| ensures Le(NameOf(r[i]), NameOf(r[j])) {
      assert ByKey(NameOf, Le)(r[i], r[j]);
    }
    r
  }

  /** A client added through POST / shows up in the salon's card index with no visits. */
  lemma CreatedClientListed(clients: seq<Client>, id: int, salonId: int, req: ClientRequest)
    ensures var row := NewClient(id, salonId, req);
      row in List(clients + [row], salonId) && row.visitsCount == 0 && row.totalSpent == 0
  {
  }

  /** `WHERE id = ? AND salon_id = ?` with the path's id. */
  function Target(salonId: int, idText: string): Client -> bool
  {
    Owned(ClientKey, ClientOwner, salonId, idText)
  }

  /** DELETE /:id: removes the salon's client with that id, or answers 404 when the
      salon has none. Appointments that name the client stay. */
  method Delete(db: Store, salonId: int, idText: string) returns (reply: Reply<()>)
    requires db.Valid()
    modifies db
    ensures db.Valid()
    ensures db.salons == old(db.salons) && db.masters == old(db.masters)
    ensures db.services == old(db.services) && db.appointments == old(db.appointments)
    ensures db.lastClientId == old(db.lastClientId)
    ensures db.clients == Filter(old(db.clients), Not(Target(salonId, idText)))
    ensures reply.Ok? <==> exists c :: c in old(db.clients) && MatchesId(Str(idText), c.id) && c.salonId == salonId
    ensures reply.Ok? ==> reply.status == 200 && |db.clients| == |old(db.clients)| - 1
    ensures reply.Fail? ==> reply == Fail(404, ClientNotFound) && db.clients == old(db.clients)
  {
    var kept := Filter(db.clients, Not(Target(salonId, idText)));
    DeleteOutcome(db.clients, ClientKey, ClientOwner, db.lastClientId, salonId, idText);
    if |kept| == |db.clients| {
      return Fail(404, ClientNotFound);
    }
    db.clients := kept;
    reply := Ok(200, ());
  }

  /** Another salon's client is out of reach: deleting by its id keeps it. */
  lemma {:induction false} ForeignClientKept(clients: seq<Client>, salonId: int, idText: string, c: Client)
    requires c in clients && c.salonId != salonId
    ensures c in Filter(clients, Not(Target(salonId, idText)))
  {
    NotMeans(Target(salonId, idText), c);
    OwnedMeans(ClientKey, ClientOwner, salonId, idText, c);
    FilterKeeps(clients, Not(Target(salonId, idText)), c);
  }
}
