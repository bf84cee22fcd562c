/** How many bikes stand at each active station
    (pipeline/collection_priority/jobs/build_fact_station_inventory.py). */
module StationInventory {
  import opened Basics
  import opened LatestState

  // ---------------------------------------------------------------- the SQL, NULL included

  /** AND over a nullable and a plain truth value. */
  function And(a: Option<bool>, b: bool): Option<bool> {
    if !b then Some(false) else a
  }

  /** action_at IS NOT NULL AND action_at > last_event_at. */
  function ActionIsNewer(location: Cell, action: Option<Cell>): Option<bool> {
    if action.None? || action.value.at.None? then Some(false)
    else if location.at.None? then None
    else Some(action.value.at.value > location.at.value)
  }

  function ActionKind(action: Option<Cell>): Option<EventKind> {
    if action.Some? && action.value.value.Some? then Some(action.value.value.value.kind) else None
  }

  function StationOf(c: Cell): Option<string> {
    if c.value.Some? then c.value.value.station else None
  }

  function EffectiveStation(location: Cell, action: Option<Cell>): Option<string> {
    if ActionIsNewer(location, action) == Some(true) && ActionKind(action) == Some(Collect) then None
    else if ActionIsNewer(location, action) == Some(true) && ActionKind(action) == Some(Deploy) then
      if StationOf(action.value).Some? then StationOf(action.value) else StationOf(location)
    else StationOf(location)
  }

  function Excluded(location: Cell, action: Option<Cell>): Option<bool> {
    And(ActionIsNewer(location, action), ActionKind(action) == Some(Collect))
  }

  /** WHERE NOT excluded AND effective_station_id IS NOT NULL: a NULL condition drops the row. */
  function CountedAt(locations: map<string, Cell>, actions: map<string, Cell>, bike: string): Option<string>
    requires bike in locations
  {
    var action := Lookup(actions, bike);
    if Excluded(locations[bike], action) == Some(false) then EffectiveStation(locations[bike], action) else None
  }

  function BikesAt(locations: map<string, Cell>, actions: map<string, Cell>, station: string): set<string> {
    set b | b in locations && CountedAt(locations, actions, b) == Some(station)
  }

  datatype Station = Station(id: string, holds: Option<int>)

  datatype InventoryRow = InventoryRow(station: string, bikes: nat, holds: Option<int>, target: Option<int>)

  /** One row per active station, also for those without bikes. */
  function Inventory(locations: map<string, Cell>, actions: map<string, Cell>, active: seq<Station>): seq<InventoryRow> {
    if active == [] then []
    else
      [InventoryRow(active[0].id, |BikesAt(locations, actions, active[0].id)|, active[0].holds, active[0].holds)]
      + Inventory(locations, actions, active[1..])
  }

  // ---------------------------------------------------------------- what it means

  /** The newest evidence about a bike: its last return, unless a later collection or deployment. */
  datatype Evidence = Unknown | Returned(station: Option<string>) | Deployed(station: Option<string>) | Collected

  function NewestEvidence(location: Cell, action: Option<Cell>): Evidence {
    if location.at.None? then Unknown
    else if action.Some? && action.value.at.Some? && action.value.at.value > location.at.value then
      match ActionKind(action)
      case Some(Collect) => Collected
      case Some(Deploy) =>
        if StationOf(action.value).Some? then Deployed(StationOf(action.value)) else Returned(StationOf(location))
      case _ => Returned(StationOf(location))
    else Returned(StationOf(location))
  }

  function PlacedAt(e: Evidence): Option<string> {
    match e
    case Returned(s) => s
    case Deployed(s) => s
    case _ => None
  }

  /** A location table as it is kept: a bike without a return time has no station. */
  predicate KeptLocations(locations: map<string, Cell>) {
    forall b | b in locations && locations[b].at.None? :: locations[b].value.None?
  }

  /** Through all the NULL cases, a bike is counted exactly where its newest evidence places it. */
  lemma CountedWherePlaced(locations: map<string, Cell>, actions: map<string, Cell>, bike: string)
    requires KeptLocations(locations) && bike in locations
    ensures CountedAt(locations, actions, bike) == PlacedAt(NewestEvidence(locations[bike], Lookup(actions, bike)))
  {
    var location, action := locations[bike], Lookup(actions, bike);
    if location.at.None? {
      assert EffectiveStation(location, action).None?;
    }
  }

  ghost predicate DistinctStations(active: seq<Station>) {
    forall i, j | 0 <= i < j < |active| :: active[i].id != active[j].id
  }

  function Ids(active: seq<Station>): set<string> {
    set s | s in active :: s.id
  }

  function PlacedAmong(locations: map<string, Cell>, actions: map<string, Cell>, stations: set<string>): set<string> {
    set b | b in locations && CountedAt(locations, actions, b).Some? && CountedAt(locations, actions, b).value in stations
  }

  function TotalBikes(rows: seq<InventoryRow>): nat {
    if rows == [] then 0 else rows[0].bikes + TotalBikes(rows[1..])
  }

  lemma {:induction false} CountsAddUp(locations: map<string, Cell>, actions: map<string, Cell>, active: seq<Station>)
    requires DistinctStations(active)
    ensures TotalBikes(Inventory(locations, actions, active)) == |PlacedAmong(locations, actions, Ids(active))|
    decreases |active|
  {
    hide CountedAt, BikesAt;
    if active == [] {
      assert PlacedAmong(locations, actions, Ids(active)) == {};
    } else {
      var rest := active[1..];
      CountsAddUp(locations, actions, rest);
      assert active == [active[0]] + rest;
      assert Ids(active) == {active[0].id} + Ids(rest);
      assert active[0].id !in Ids(rest);
      OneMoreStation(locations, actions, active[0].id, Ids(rest));
    }
  }

  lemma OneMoreStation(locations: map<string, Cell>, actions: map<string, Cell>, station: string, others: set<string>)
    requires station !in others
    ensures |PlacedAmong(locations, actions, {station} + others)|
         == |BikesAt(locations, actions, station)| + |PlacedAmong(locations, actions, others)|
  {
    hide CountedAt;
    var here, there := BikesAt(locations, actions, station), PlacedAmong(locations, actions, others);
    assert PlacedAmong(locations, actions, {station} + others) == here + there;
    assert here !! there;
  }

  /** Main result: the inventory conserves bikes. Its total is the number of bikes whose newest evidence
      places them at an active station; each such bike is counted once, and no collected bike anywhere. */
  lemma BikesAreConserved(locations: map<string, Cell>, actions: map<string, Cell>, active: seq<Station>)
    requires KeptLocations(locations) && DistinctStations(active)
    ensures TotalBikes(Inventory(locations, actions, active))
         == |set b | b in locations && Placed(locations, actions, b, Ids(active))|
    ensures forall b, s | b in locations && b in BikesAt(locations, actions, s) ::
      NewestEvidence(locations[b], Lookup(actions, b)) != Collected
    ensures forall s, t | s != t :: BikesAt(locations, actions, s) !! BikesAt(locations, actions, t)
  {
    CountsAddUp(locations, actions, active);
    forall b | b in locations
      ensures CountedAt(locations, actions, b) == PlacedAt(NewestEvidence(locations[b], Lookup(actions, b)))
    {
      CountedWherePlaced(locations, actions, b);
    }
    hide CountedAt, NewestEvidence;
    assert PlacedAmong(locations, actions, Ids(active)) == set b | b in locations && Placed(locations, actions, b, Ids(active));
  }

  predicate Placed(locations: map<string, Cell>, actions: map<string, Cell>, bike: string, stations: set<string>)
    requires bike in locations
  {
    var at := PlacedAt(NewestEvidence(locations[bike], Lookup(actions, bike)));
    at.Some? && at.value in stations
  }

  /** Every active station has its row in the order of the stations, with its count, and its holds both as
      they are and as the target. */
  lemma {:induction false} EveryActiveStationHasARow(
    locations: map<string, Cell>, actions: map<string, Cell>, active: seq<Station>, i: nat)
    requires i < |active|
    ensures |Inventory(locations, actions, active)| == |active|
    ensures Inventory(locations, actions, active)[i].station == active[i].id
    ensures Inventory(locations, actions, active)[i].bikes == |BikesAt(locations, actions, active[i].id)|
    ensures Inventory(locations, actions, active)[i].holds == active[i].holds
    ensures Inventory(locations, actions, active)[i].target == active[i].holds
    decreases |active|
  {
    if |active| > 1 {
      EveryActiveStationHasARow(locations, actions, active[1..], if i == 0 then 0 else i - 1);
    } else {
      assert Inventory(locations, actions, active[1..]) == [];
    }
  }

  /** The location table the incremental job keeps meets the assumption. */
  lemma StoredLocationsAreKept(st: State)
    requires Inv(st)
    ensures KeptLocations(st.cells)
  {
    forall b | b in st.cells && st.cells[b].at.None? ensures st.cells[b].value.None? {
      assert IsLatest(st.seen, b, st.cells[b]);
    }
  }
}
