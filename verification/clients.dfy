/** The client service: clients with their vehicles, lookup and search, and the three updates
    that rebuild the client list with one client replaced. Identifiers that the source draws
    from the clock and a random number are parameters here. */
module Clients {
  import opened Wrappers
  import Seqs
  import Text

  datatype ContactMethod = Email | Phone | WhatsApp

  datatype VehicleType = Small | Medium | Large | Suv | Truck

  datatype Vehicle = Vehicle(
    id: string,
    make: string,
    model: string,
    year: string,
    licensePlate: string,
    kind: VehicleType,
    color: string)

  /** A vehicle as the caller supplies it, before it is given an id. */
  datatype VehicleDraft = VehicleDraft(
    make: string,
    model: string,
    year: string,
    licensePlate: string,
    kind: VehicleType,
    color: string)

  datatype Client = Client(
    id: string,
    name: string,
    email: string,
    phone: string,
    preferredContactMethod: ContactMethod,
    vehicles: seq<Vehicle>,
    notes: string,
    loyaltyPoints: int,
    lastServiceDate: Option<string>)

  /** A client as the caller supplies it, before it is given an id. */
  datatype ClientDraft = ClientDraft(
    name: string,
    email: string,
    phone: string,
    preferredContactMethod: ContactMethod,
    vehicles: seq<Vehicle>,
    notes: string,
    loyaltyPoints: int,
    lastServiceDate: Option<string>)

  /** The new client list and the value the operation returns (`undefined` is `None`). */
  datatype Update = Update(clients: seq<Client>, result: Option<Client>)

  predicate HasId(c: Client, id: string) {
    c.id == id
  }

  /** `findIndex(client => client.id === id)`. */
  function IndexOf(clients: seq<Client>, id: string): (r: Option<nat>)
    ensures r.None? <==> forall c :: c in clients ==> c.id != id
    ensures r.Some? ==> (r.value < |clients| && clients[r.value].id == id
      && forall j :: 0 <= j < r.value ==> clients[j].id != id)
  {
    Seqs.FindIndex(clients, c => HasId(c, id))
  }

  /** `getClientById`: the first client carrying `id`. */
  function GetClientById(clients: seq<Client>, id: string): (r: Option<Client>)
    ensures r.None? <==> forall c :: c in clients ==> c.id != id
    ensures r.Some? ==> r.value.id == id && r.value == clients[IndexOf(clients, id).value]
  {
    var i := IndexOf(clients, id);
    if i.Some? then Some(clients[i.value]) else None
  }

  /** The client's name contains the query, both lower-cased. */
  predicate NameMatches(c: Client, query: string) {
    Text.Contains(Text.Lower(c.name), Text.Lower(query))
  }

  /** `searchClientsByName`: an empty query returns the list itself, any other query the clients
      whose lower-cased name contains it. The early return agrees with the filter, since every
      name contains the empty string. */
  function SearchClientsByName(clients: seq<Client>, query: string): (r: seq<Client>)
    ensures query == "" ==> r == clients
    ensures r == Seqs.Filter(clients, c => NameMatches(c, query))
    ensures forall c :: c in r <==> c in clients && NameMatches(c, query)
  {
    if query == "" then
      assert forall c :: c in clients ==> NameMatches(c, query) by {
        forall c | c in clients
          ensures NameMatches(c, query)
        {
          Text.ContainsEmpty(Text.Lower(c.name));
        }
      }
      Seqs.FilterAll(clients, c => NameMatches(c, query));
      clients
    else Seqs.Filter(clients, c => NameMatches(c, query))
  }

  /** `addClient`: the draft, given `newId`, appended to the list. */
  function AddClient(clients: seq<Client>, draft: ClientDraft, newId: string): (u: Update)
    ensures u.result.Some? && u.result.value.id == newId
    ensures u.clients == clients + [u.result.value]
    ensures var c := u.result.value;
      c.name == draft.name && c.email == draft.email && c.phone == draft.phone
      && c.preferredContactMethod == draft.preferredContactMethod && c.vehicles == draft.vehicles
      && c.notes == draft.notes && c.loyaltyPoints == draft.loyaltyPoints
      && c.lastServiceDate == draft.lastServiceDate
  {
    var c := Client(newId, draft.name, draft.email, draft.phone, draft.preferredContactMethod,
      draft.vehicles, draft.notes, draft.loyaltyPoints, draft.lastServiceDate);
    Update(clients + [c], Some(c))
  }

  /** A fresh id finds the client just added. */
  lemma AddedClientIsFound(clients: seq<Client>, draft: ClientDraft, newId: string)
    requires forall c :: c in clients ==> c.id != newId
    ensures GetClientById(AddClient(clients, draft, newId).clients, newId)
      == AddClient(clients, draft, newId).result
  {
    var u := AddClient(clients, draft, newId);
    assert forall j :: 0 <= j < |clients| ==> u.clients[j] == clients[j];
    assert u.clients[|clients|].id == newId;
  }

  /** The shape shared by the three updates: the first client carrying `id` is replaced by
      `f` of itself and returned; with no such client, the list and result are untouched. */
  function ReplaceFirst(clients: seq<Client>, id: string, f: Client -> Client): (u: Update)
    ensures |u.clients| == |clients|
    ensures IndexOf(clients, id).None? ==> u == Update(clients, None)
    ensures IndexOf(clients, id).Some? ==>
      var i := IndexOf(clients, id).value;
      && u.result == Some(f(clients[i]))
      && u.clients[i] == f(clients[i])
      && forall j :: 0 <= j < |clients| && j != i ==> u.clients[j] == clients[j]
  {
    match IndexOf(clients, id)
    case None => Update(clients, None)
    case Some(i) =>
      var updated := f(clients[i]);
      Update(Seqs.SpliceAt(clients, i, updated), Some(updated))
  }

  /** The per-client changes of the three updates; none of them touches the id. */
  function AddingPoints(points: int): Client -> Client {
    (c: Client) => c.(loyaltyPoints := c.loyaltyPoints + points)
  }

  function AddingVehicle(v: Vehicle): Client -> Client {
    (c: Client) => c.(vehicles := c.vehicles + [v])
  }

  function SettingLastService(date: string): Client -> Client {
    (c: Client) => c.(lastServiceDate := Some(date))
  }

  /** `updateLoyaltyPoints`: adds `points` (which may be negative) to the matched client. */
  function UpdateLoyaltyPoints(clients: seq<Client>, id: string, points: int): (u: Update)
    ensures |u.clients| == |clients|
    ensures IndexOf(clients, id).None? ==> u == Update(clients, None)
    ensures IndexOf(clients, id).Some? ==>
      var i := IndexOf(clients, id).value;
      && u.clients[i] == clients[i].(loyaltyPoints := clients[i].loyaltyPoints + points)
      && u.result == Some(u.clients[i])
      && forall j :: 0 <= j < |clients| && j != i ==> u.clients[j] == clients[j]
  {
    ReplaceFirst(clients, id, AddingPoints(points))
  }

  /** `addVehicleToClient`: the draft, given `vehicleId`, appended to the matched client's
      vehicles. */
  function AddVehicleToClient(clients: seq<Client>, id: string, draft: VehicleDraft, vehicleId: string): (u: Update)
    ensures |u.clients| == |clients|
    ensures IndexOf(clients, id).None? ==> u == Update(clients, None)
    ensures IndexOf(clients, id).Some? ==>
      var i := IndexOf(clients, id).value;
      var v := Vehicle(vehicleId, draft.make, draft.model, draft.year, draft.licensePlate, draft.kind, draft.color);
      && u.clients[i] == clients[i].(vehicles := clients[i].vehicles + [v])
      && u.result == Some(u.clients[i])
      && forall j :: 0 <= j < |clients| && j != i ==> u.clients[j] == clients[j]
  {
    var v := Vehicle(vehicleId, draft.make, draft.model, draft.year, draft.licensePlate, draft.kind, draft.color);
    ReplaceFirst(clients, id, AddingVehicle(v))
  }

  /** `updateLastServiceDate`: records `date` on the matched client. */
  function UpdateLastServiceDate(clients: seq<Client>, id: string, date: string): (u: Update)
    ensures |u.clients| == |clients|
    ensures IndexOf(clients, id).None? ==> u == Update(clients, None)
    ensures IndexOf(clients, id).Some? ==>
      var i := IndexOf(clients, id).value;
      && u.clients[i] == clients[i].(lastServiceDate := Some(date))
      && u.result == Some(u.clients[i])
      && forall j :: 0 <= j < |clients| && j != i ==> u.clients[j] == clients[j]
  {
    ReplaceFirst(clients, id, SettingLastService(date))
  }

  /** Two lists with the same ids position by position give the same lookup result. */
  lemma IndexOfSameIds(xs: seq<Client>, ys: seq<Client>, id: string)
    requires |xs| == |ys|
    requires forall j :: 0 <= j < |xs| ==> xs[j].id == ys[j].id
    ensures IndexOf(xs, id) == IndexOf(ys, id)
  {
    var a, b := IndexOf(xs, id), IndexOf(ys, id);
    if a.Some? {
      assert ys[a.value] in ys;
      assert b.Some? && b.value <= a.value;
    }
    if b.Some? {
      assert xs[b.value] in xs;
      assert a.Some? && a.value <= b.value;
    }
  }

  /** An update that keeps ids leaves every lookup pointing at the same position. */
  lemma IndexOfPreserved(clients: seq<Client>, id: string, other: string, f: Client -> Client)
    requires forall c :: f(c).id == c.id
    ensures IndexOf(ReplaceFirst(clients, id, f).clients, other) == IndexOf(clients, other)
  {
    var cs := ReplaceFirst(clients, id, f).clients;
    forall j | 0 <= j < |cs|
      ensures cs[j].id == clients[j].id
    {
      assert cs[j] == clients[j] || cs[j] == f(clients[j]);
    }
    IndexOfSameIds(cs, clients, other);
  }

  /** After an update, looking the client up returns what the update returned. */
  lemma UpdatedClientIsFound(clients: seq<Client>, id: string, points: int)
    ensures GetClientById(UpdateLoyaltyPoints(clients, id, points).clients, id)
      == UpdateLoyaltyPoints(clients, id, points).result
  {
    IndexOfPreserved(clients, id, id, AddingPoints(points));
  }

  /** Two loyalty updates of the same client add up to one update by the sum. */
  lemma LoyaltyUpdatesCompose(clients: seq<Client>, id: string, p: int, q: int)
    ensures UpdateLoyaltyPoints(UpdateLoyaltyPoints(clients, id, p).clients, id, q).clients
      == UpdateLoyaltyPoints(clients, id, p + q).clients
  {
    var once := UpdateLoyaltyPoints(clients, id, p).clients;
    IndexOfPreserved(clients, id, id, AddingPoints(p));
    var twice := UpdateLoyaltyPoints(once, id, q).clients;
    var sum := UpdateLoyaltyPoints(clients, id, p + q).clients;
    assert |twice| == |sum|;
    forall j | 0 <= j < |twice|
      ensures twice[j] == sum[j]
    {
    }
  }

  /** Nothing bounds the balance from below: a large enough deduction makes it negative. */
  lemma LoyaltyCanGoNegative(clients: seq<Client>, id: string)
    requires IndexOf(clients, id).Some?
    ensures var i := IndexOf(clients, id).value;
      UpdateLoyaltyPoints(clients, id, -clients[i].loyaltyPoints - 1).clients[i].loyaltyPoints < 0
  {
  }

  /** Recording the same date twice is the same as recording it once. */
  lemma LastServiceDateIdempotent(clients: seq<Client>, id: string, date: string)
    ensures UpdateLastServiceDate(UpdateLastServiceDate(clients, id, date).clients, id, date)
      == UpdateLastServiceDate(clients, id, date)
  {
    IndexOfPreserved(clients, id, id, SettingLastService(date));
    var once := UpdateLastServiceDate(clients, id, date);
    var twice := UpdateLastServiceDate(once.clients, id, date);
    if IndexOf(clients, id).Some? {
      assert |twice.clients| == |once.clients|;
      forall j | 0 <= j < |once.clients|
        ensures twice.clients[j] == once.clients[j]
      {
      }
    }
  }

  /** Adding a vehicle keeps the client's vehicles and puts the new one last. */
  lemma VehicleAppendedLast(clients: seq<Client>, id: string, draft: VehicleDraft, vehicleId: string)
    requires IndexOf(clients, id).Some?
    ensures var u := AddVehicleToClient(clients, id, draft, vehicleId);
      var before := clients[IndexOf(clients, id).value].vehicles;
      var after := u.result.value.vehicles;
      && |after| == |before| + 1
      && after[..|before|] == before
      && after[|before|].id == vehicleId && after[|before|].licensePlate == draft.licensePlate
  {
  }
}
