// routes/masters.js: the salon's masters, listed by name, added and removed.
// Every route runs behind authenticateToken, which supplies the salon id.

module Masters {
  import opened Js
  import opened Ordering
  import opened Sql
  import opened Http
  import opened Database

  /** The body of POST /. */
  datatype MasterRequest = MasterRequest(
    name: JsValue, phone: JsValue, email: JsValue, specialties: JsValue,
    workSchedule: JsValue, description: JsValue)

  /** The row POST / inserts: empty optional fields become NULL, the lists are
      serialised with `[]` and `{}` in place of falsy values, and the rating and
      the active flag take their column defaults. */
  function NewMaster(id: int, salonId: int, req: MasterRequest): Master
  {
    Master(
      id, salonId, req.name, Or(req.phone, Null), Or(req.email, Null),
      JsonOf(Or(req.specialties, Arr([]))), JsonOf(Or(req.workSchedule, Obj(map[]))),
      Null, Or(req.description, Null), DefaultRating, true)
  }

  /** POST /: the reply carries the row as stored. */
  method Create(db: Store, salonId: int, req: MasterRequest) returns (reply: Reply<Master>)
    requires db.Valid()
    modifies db
    ensures db.Valid()
    ensures db.salons == old(db.salons) && db.services == old(db.services)
    ensures db.clients == old(db.clients) && db.appointments == old(db.appointments)
    ensures !Truthy(req.name) ==>
      && reply == Fail(400, MasterNameRequired)
      && db.masters == old(db.masters) && db.lastMasterId == old(db.lastMasterId)
    ensures Truthy(req.name) ==>
      var row := NewMaster(old(db.lastMasterId) + 1, salonId, req);
      && db.masters == old(db.masters) + [row]
      && db.lastMasterId == row.id
      && reply == Ok(201, row)
  {
    if !Truthy(req.name) {
      return Fail(400, MasterNameRequired);
    }
    var id := db.lastMasterId + 1;
    var row := NewMaster(id, salonId, req);
    KeyedAppend(db.masters, MasterKey, db.lastMasterId, row);
    db.masters := db.masters + [row];
    db.lastMasterId := id;
    reply := Ok(201, row);
  }

  /** A new master is active, rated 5 and keeps the name it was given; an omitted
      specialty list is stored as the empty list. */
  lemma NewMasterDefaults(id: int, salonId: int, req: MasterRequest)
    requires Truthy(req.name) && !Truthy(req.specialties)
    ensures var m := NewMaster(id, salonId, req);
      m.isActive && m.rating == Num(5) && m.name == req.name && m.salonId == salonId
      && m.specialties == JsonOf(Arr([]))
  {
  }

  /** The name as the TEXT column holds it. */
  function NameOf(m: Master): SqlValue { TextAffinity(m.name) }
  function MasterOwner(m: Master): int { m.salonId }

  function OfSalon(salonId: int): Master -> bool
  {
    (m: Master) => m.salonId == salonId
  }

  /** GET /: `WHERE salon_id = ? ORDER BY name`: the salon's masters and no others,
      in name order. */
  function List(masters: seq<Master>, salonId: int): (r: seq<Master>)
    ensures |r| == Count(masters, OfSalon(salonId))
    ensures forall m :: m in r <==> m in masters && m.salonId == salonId
    ensures forall i, j :: 0 <= i < j < |r| ==> Le(NameOf(r[i]), NameOf(r[j]))
  {
    LeTotalPreorder();
    ByKeyTotal(NameOf, Le);
    var own := Filter(masters, OfSalon(salonId));
    var r := SortBy(own, ByKey(NameOf, Le));
    SameMembers(r, own);
    forall m | m in masters && m.salonId == salonId ensures m in own {
      FilterKeeps(masters, OfSalon(salonId), m);
    }
    forall i, j | 0 <= i < j < |r| ensures Le(NameOf(r[i]), NameOf(r[j])) {
      assert ByKey(NameOf, Le)(r[i], r[j]);
    }
    r
  }

  /** A master added through POST / shows up in the salon's list. */
  lemma CreatedMasterListed(masters: seq<Master>, id: int, salonId: int, req: MasterRequest)
    ensures NewMaster(id, salonId, req) in List(masters + [NewMaster(id, salonId, req)], salonId)
  {
  }

  /** `WHERE id = ? AND salon_id = ?` with the path's id. */
  function Target(salonId: int, idText: string): Master -> bool
  {
    Owned(MasterKey, MasterOwner, salonId, idText)
  }

  /** DELETE /:id: removes the salon's master with that id, or answers 404 when the
      salon has none (another salon's master is never touched). Appointments that
      name the master stay, since foreign keys are not enforced. */
  method Delete(db: Store, salonId: int, idText: string) returns (reply: Reply<()>)
    requires db.Valid()
    modifies db
    ensures db.Valid()
    ensures db.salons == old(db.salons) && db.services == old(db.services)
    ensures db.clients == old(db.clients) && db.appointments == old(db.appointments)
    ensures db.lastMasterId == old(db.lastMasterId)
    ensures db.masters == Filter(old(db.masters), Not(Target(salonId, idText)))
    ensures reply.Ok? <==> exists m :: m in old(db.masters) && MatchesId(Str(idText), m.id) && m.salonId == salonId
    ensures reply.Ok? ==> reply.status == 200 && |db.masters| == |old(db.masters)| - 1
    ensures reply.Fail? ==> reply == Fail(404, MasterNotFound) && db.masters == old(db.masters)
  {
    var kept := Filter(db.masters, Not(Target(salonId, idText)));
    DeleteOutcome(db.masters, MasterKey, MasterOwner, db.lastMasterId, salonId, idText);
    if |kept| == |db.masters| {
      return Fail(404, MasterNotFound);
    }
    db.masters := kept;
    reply := Ok(200, ());
  }

  /** After DELETE /:id the master is gone from the salon's list. */
  lemma {:induction false} DeletedMasterUnlisted(masters: seq<Master>, salonId: int, idText: string, m: Master)
    requires MatchesId(Str(idText), m.id)
    ensures m !in List(Filter(masters, Not(Target(salonId, idText))), salonId)
  {
    var kept := Filter(masters, Not(Target(salonId, idText)));
    var listed := List(kept, salonId);
    forall x | x in listed ensures x != m {
      var j :| 0 <= j < |kept| && kept[j] == x;
      NotMeans(Target(salonId, idText), x);
      OwnedMeans(MasterKey, MasterOwner, salonId, idText, x);
    }
  }
}
