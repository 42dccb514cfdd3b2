// The five tables of the SQLite database and the replies the routes send.
// A row holds the JavaScript value each route bound for a column (or the
// column's DEFAULT when the route leaves it out). Ids come from AUTOINCREMENT:
// each table remembers the largest id it has handed out.

module Http {
  /** Why a route refused a request; each stands for one fixed message text. */
  datatype Reason =
    | RequiredFieldsMissing     // "fill in all required fields" (appointments, register, services)
    | MasterNameRequired
    | NameAndPhoneRequired
    | CredentialsRequired       // login without email or password
    | EmailTaken
    | WrongEmailOrPassword      // one text for an unknown email and a wrong password
    | TokenMissing
    | TokenInvalid
    | SalonNotFound
    | ServiceNotFound
    | MasterNotFound
    | ClientNotFound
    | ServerError               // the catch block of every route

  /** An HTTP reply: a status with the `success: true` payload, or a status with the refusal. */
  datatype Reply<+T> = Ok(status: int, value: T) | Fail(status: int, reason: Reason)

  /** What a route's checks decide before it writes: go ahead with a value, or refuse. */
  datatype Verdict<+T> = Accept(value: T) | Refuse(status: int, reason: Reason)
}

module Database {
  import opened Optional
  import opened Js
  import opened Ordering
  import opened Sql

  /** The serialised text JSON.stringify(value) produces, kept as the value it encodes. */
  datatype JsonText = JsonOf(value: JsValue)

  const StatusConfirmed := "confirmed"
  const StatusCompleted := "completed"
  const DefaultCategory := "other"
  const DefaultPlan := "basic"
  const DefaultRating: JsValue := Num(5)

  /** The DEFAULT texts of salons.work_hours and salons.settings. */
  const DefaultWorkHours := "{\"mon\":{\"start\":\"09:00\",\"end\":\"21:00\"},\"tue\":{\"start\":\"09:00\",\"end\":\"21:00\"},\"wed\":{\"start\":\"09:00\",\"end\":\"21:00\"},\"thu\":{\"start\":\"09:00\",\"end\":\"21:00\"},\"fri\":{\"start\":\"09:00\",\"end\":\"21:00\"},\"sat\":{\"start\":\"10:00\",\"end\":\"20:00\"},\"sun\":{\"start\":\"10:00\",\"end\":\"20:00\"}}"
  const DefaultSettings := "{\"slot_duration\":30,\"advance_booking_days\":30,\"cancellation_hours\":2}"

  datatype Salon = Salon(
    id: int, name: JsValue, address: JsValue, phone: JsValue, email: JsValue,
    password: string, workHours: string, settings: string, subscriptionPlan: string)

  datatype Master = Master(
    id: int, salonId: int, name: JsValue, phone: JsValue, email: JsValue,
    specialties: JsonText, workSchedule: JsonText, avatar: JsValue, description: JsValue,
    rating: JsValue, isActive: bool)

  datatype Service = Service(
    id: int, salonId: int, name: JsValue, description: JsValue, duration: JsValue,
    price: JsValue, category: JsValue, isActive: bool)

  datatype Client = Client(
    id: int, salonId: int, name: JsValue, phone: JsValue, email: JsValue, birthday: JsValue,
    notes: JsValue, visitsCount: int, totalSpent: int, lastVisit: JsValue)

  datatype Appointment = Appointment(
    id: int, salonId: int, masterId: JsValue, serviceId: JsValue, clientId: JsValue,
    date: JsValue, startTime: JsValue, endTime: string, status: string, notes: JsValue,
    price: JsValue)

  function SalonKey(s: Salon): int { s.id }
  function MasterKey(m: Master): int { m.id }
  function ServiceKey(s: Service): int { s.id }
  function ClientKey(c: Client): int { c.id }
  function AppointmentKey(a: Appointment): int { a.id }

  /** An AUTOINCREMENT table: ids are distinct, positive and at most the last one handed out. */
  ghost predicate Keyed<T>(rows: seq<T>, key: T -> int, last: int)
  {
    && (forall i :: 0 <= i < |rows| ==> 1 <= key(rows[i]) <= last)
    && (forall i, j :: 0 <= i < j < |rows| ==> key(rows[i]) != key(rows[j]))
  }

  lemma KeyedAppend<T>(rows: seq<T>, key: T -> int, last: int, row: T)
    requires Keyed(rows, key, last) && last >= 0 && key(row) == last + 1
    ensures Keyed(rows + [row], key, last + 1)
  {
  }

  lemma KeyedTail<T>(rows: seq<T>, key: T -> int, last: int)
    requires Keyed(rows, key, last) && rows != []
    ensures Keyed(rows[1..], key, last)
  {
    forall i, j | 0 <= i < j < |rows[1..]| ensures key(rows[1..][i]) != key(rows[1..][j]) {
      assert rows[1..][i] == rows[i + 1] && rows[1..][j] == rows[j + 1];
    }
  }

  lemma KeyedCons<T>(head: T, rest: seq<T>, key: T -> int, last: int)
    requires Keyed(rest, key, last) && 1 <= key(head) <= last
    requires forall k :: 0 <= k < |rest| ==> key(head) != key(rest[k])
    ensures Keyed([head] + rest, key, last)
  {
    var r := [head] + rest;
    forall i, j | 0 <= i < j < |r| ensures key(r[i]) != key(r[j]) {
      assert r[j] == rest[j - 1];
      if i > 0 {
        assert r[i] == rest[i - 1];
      }
    }
    forall i | 0 < i < |r| ensures 1 <= key(r[i]) <= last {
      assert r[i] == rest[i - 1];
    }
  }

  /** A WHERE clause keeps the ids of the rows it keeps. */
  lemma {:induction false} KeyedFilter<T(!new)>(rows: seq<T>, key: T -> int, last: int, p: T -> bool)
    requires Keyed(rows, key, last)
    ensures Keyed(Filter(rows, p), key, last)
  {
    if rows != [] {
      KeyedTail(rows, key, last);
      var rest := Filter(rows[1..], p);
      KeyedFilter(rows[1..], key, last, p);
      if p(rows[0]) {
        forall k | 0 <= k < |rest| ensures key(rows[0]) != key(rest[k]) {
          var j :| 0 <= j < |rows[1..]| && rows[1..][j] == rest[k];
          assert rows[1..][j] == rows[j + 1];
        }
        KeyedCons(rows[0], rest, key, last);
        assert Filter(rows, p) == [rows[0]] + rest;
      } else {
        assert Filter(rows, p) == rest;
      }
    }
  }

  /** `SELECT ... WHERE id = ?` against an INTEGER PRIMARY KEY, with a bound value `ref`. */
  function FindById<T(!new)>(rows: seq<T>, key: T -> int, ref: JsValue): (r: Option<T>)
    ensures r.Some? ==> r.value in rows && MatchesId(ref, key(r.value))
    ensures r.None? ==> forall x :: x in rows ==> !MatchesId(ref, key(x))
  {
    if rows == [] then None
    else if MatchesId(ref, key(rows[0])) then Some(rows[0])
    else FindById(rows[1..], key, ref)
  }

  /** Two bound values that read as the same integer find the same row. */
  lemma {:induction false} FindByIdSameInteger<T(!new)>(rows: seq<T>, key: T -> int, a: JsValue, b: JsValue)
    requires AsInteger(a) == AsInteger(b)
    ensures FindById(rows, key, a) == FindById(rows, key, b)
  {
    if rows != [] {
      FindByIdSameInteger(rows[1..], key, a, b);
    }
  }

  /** Ids are unique, so a lookup finds the one row that carries the id. */
  lemma {:induction false} FindByIdKeyed<T(!new)>(rows: seq<T>, key: T -> int, last: int, ref: JsValue, x: T)
    requires Keyed(rows, key, last) && x in rows && MatchesId(ref, key(x))
    ensures FindById(rows, key, ref) == Some(x)
  {
    if rows[0] != x {
      var j :| 1 <= j < |rows| && rows[j] == x;
      assert key(rows[0]) != key(rows[j]);
      assert rows[1..][j - 1] == x;
      KeyedTail(rows, key, last);
      FindByIdKeyed(rows[1..], key, last, ref, x);
    }
  }

  /** The negation of a row condition. */
  function Not<T>(p: T -> bool): T -> bool
  {
    (x: T) => !p(x)
  }

  lemma NotMeans<T>(p: T -> bool, x: T)
    ensures Not(p)(x) <==> !p(x)
  {
  }

  /** `WHERE id = ? AND salon_id = ?` with the id as the path gives it. */
  function Owned<T>(key: T -> int, owner: T -> int, salonId: int, idText: string): T -> bool
  {
    (x: T) => MatchesId(Str(idText), key(x)) && owner(x) == salonId
  }

  lemma OwnedMeans<T>(key: T -> int, owner: T -> int, salonId: int, idText: string, x: T)
    ensures Owned(key, owner, salonId, idText)(x) <==> MatchesId(Str(idText), key(x)) && owner(x) == salonId
  {
  }

  /** `DELETE ... WHERE id = ? AND salon_id = ?` removes the one row it names, or nothing:
      the table shrinks by one exactly when some row matched. */
  lemma {:induction false} DeleteOwned<T(!new)>(rows: seq<T>, key: T -> int, owner: T -> int, last: int, salonId: int, idText: string)
    requires Keyed(rows, key, last)
    ensures var kept := Filter(rows, Not(Owned(key, owner, salonId, idText)));
      && (|kept| == |rows| <==> forall x :: x in rows ==> !Owned(key, owner, salonId, idText)(x))
      && (|kept| == |rows| || |kept| == |rows| - 1)
  {
    var p := Owned(key, owner, salonId, idText);
    if rows != [] {
      var rest := rows[1..];
      assert rows == [rows[0]] + rest;
      KeyedTail(rows, key, last);
      DeleteOwned(rest, key, owner, last, salonId, idText);
      if p(rows[0]) {
        forall x | x in rest ensures !p(x) {
          var j :| 0 <= j < |rest| && rest[j] == x;
          assert rest[j] == rows[j + 1];
          assert key(rows[0]) != key(rows[j + 1]);
        }
      }
    }
  }

  /** What a route learns from the `DELETE`: with a matching row one row goes and the
      ids stay unique; without one the table is unchanged. */
  lemma DeleteOutcome<T(!new)>(rows: seq<T>, key: T -> int, owner: T -> int, last: int, salonId: int, idText: string)
    requires Keyed(rows, key, last)
    ensures var kept := Filter(rows, Not(Owned(key, owner, salonId, idText)));
      && Keyed(kept, key, last)
      && ((exists x :: x in rows && MatchesId(Str(idText), key(x)) && owner(x) == salonId) <==> |kept| == |rows| - 1)
      && (|kept| == |rows| - 1 || kept == rows)
  {
    var p := Not(Owned(key, owner, salonId, idText));
    DeleteOwned(rows, key, owner, last, salonId, idText);
    KeyedFilter(rows, key, last, p);
    if forall x :: x in rows ==> !Owned(key, owner, salonId, idText)(x) {
      FilterAll(rows, p);
    } else {
      var x :| x in rows && Owned(key, owner, salonId, idText)(x);
      OwnedMeans(key, owner, salonId, idText, x);
    }
  }

  /** The UNIQUE constraint on salons.email, a TEXT column: no two rows hold
      e-mails that compare equal as text. */
  ghost predicate EmailsUnique(salons: seq<Salon>)
  {
    forall i, j :: 0 <= i < j < |salons| ==> !TextMatches(salons[i].email, salons[j].email)
  }

  /** `WHERE id = ?` with the salon id taken from the session. */
  function HasId(id: int): Salon -> bool
  {
    (s: Salon) => s.id == id
  }

  /** `WHERE email = ?`: the stored e-mail and the bound one compared as text. */
  function HasEmail(email: JsValue): Salon -> bool
  {
    (s: Salon) => TextMatches(s.email, email)
  }

  /** `SELECT ... FROM salons WHERE ...`: the first row the condition holds for,
      if any (the id in /me and /salon/info, the e-mail at login and
      registration). */
  function FindSalon(salons: seq<Salon>, p: Salon -> bool): (r: Option<Salon>)
    ensures r.Some? ==> r.value in salons && p(r.value)
    ensures r.None? ==> forall s :: s in salons ==> !p(s)
  {
    if salons == [] then None
    else if p(salons[0]) then Some(salons[0])
    else FindSalon(salons[1..], p)
  }

  /** With unique e-mails, the lookup by any e-mail that matches a salon's as text
      finds that salon. */
  lemma {:induction false} FindSalonByEmailUnique(salons: seq<Salon>, s: Salon, email: JsValue)
    requires EmailsUnique(salons) && s in salons && TextMatches(s.email, email)
    ensures FindSalon(salons, HasEmail(email)) == Some(s)
  {
    if salons[0] != s {
      assert s in salons[1..];
      var j :| 1 <= j < |salons| && salons[j] == s;
      assert !TextMatches(salons[0].email, salons[j].email);
      TextMatchesEquivalence(salons[0].email, email, s.email);
      FindSalonByEmailUnique(salons[1..], s, email);
    }
  }

  /** A new row whose e-mail matches no stored one keeps the e-mails unique. */
  lemma EmailsUniqueAppend(salons: seq<Salon>, row: Salon)
    requires EmailsUnique(salons) && forall s :: s in salons ==> !TextMatches(s.email, row.email)
    ensures EmailsUnique(salons + [row])
  {
    var all := salons + [row];
    forall i, j | 0 <= i < j < |all| ensures !TextMatches(all[i].email, all[j].email) {
      if j == |salons| {
        assert all[i] in salons;
      }
    }
  }

  /** The SQLite database: one table per entity, plus sqlite_sequence. */
  class Store {
    var salons: seq<Salon>
    var masters: seq<Master>
    var services: seq<Service>
    var clients: seq<Client>
    var appointments: seq<Appointment>
    var lastSalonId: nat
    var lastMasterId: nat
    var lastServiceId: nat
    var lastClientId: nat
    var lastAppointmentId: nat

    /** The primary keys, AUTOINCREMENT and the UNIQUE email constraint hold. */
    ghost predicate Valid()
      reads this
    {
      && Keyed(salons, SalonKey, lastSalonId)
      && Keyed(masters, MasterKey, lastMasterId)
      && Keyed(services, ServiceKey, lastServiceId)
      && Keyed(clients, ClientKey, lastClientId)
      && Keyed(appointments, AppointmentKey, lastAppointmentId)
      && EmailsUnique(salons)
    }

    /** A freshly created database: every table empty. */
    constructor ()
      ensures Valid()
      ensures salons == [] && masters == [] && services == [] && clients == [] && appointments == []
    {
      salons, masters, services, clients, appointments := [], [], [], [], [];
      lastSalonId, lastMasterId, lastServiceId, lastClientId, lastAppointmentId := 0, 0, 0, 0, 0;
    }
  }
}
