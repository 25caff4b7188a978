/** The records of the database tables the services share, their status
    enumerations, and the database itself. */
module Entities {
  import opened Common

  datatype IncidentStatus = AwaitingDispatch | Dispatched | OnScene | Closed | Cancelled

  datatype ResourceStatus = Available | EnRoute | ResourceOnScene | ReturningBase | Unavailable

  datatype ResourceType = Ambulance | PumperTruck | RescueVehicle | SupportUnit | Officer

  /** Triage priority; by the meaning of the levels, red is the most urgent and info the least. */
  datatype Priority = Red | Yellow | Green | Info

  /** A latitude or a longitude. Coordinates are never computed with; only the
      JavaScript truthiness test (`0` is falsy) is observed. */
  type Coord = real

  predicate Truthy(c: Option<Coord>) {
    c.Some? && c.value != 0.0
  }

  /** A GeoJSON point; GeoJSON orders a position as (longitude, latitude). */
  datatype Point = Point(longitude: Coord, latitude: Coord)

  datatype Incident = Incident(
    id: Id,
    callerName: string,
    callerPhone: string,
    address: string,
    addressNotes: Option<string>,
    coordinates: Point,
    narrative: string,
    status: IncidentStatus,
    priority: Priority,
    protocolId: Id,
    operatorId: Id,
    createdAt: nat)

  datatype Resource = Resource(
    id: Id,
    name: string,
    kind: ResourceType,
    status: ResourceStatus,
    currentLocation: Option<Point>)

  /** A row of `dispatch_assignments`: one resource committed to one incident. */
  datatype Assignment = Assignment(incidentId: Id, resourceId: Id, assignedAt: nat)

  datatype Nature = Nature(id: Id, code: string, name: string, defaultPriority: Priority)

  /** A protocol with its eagerly loaded nature (absent when the join column is null). */
  datatype Protocol = Protocol(id: Id, nature: Option<Nature>, keywords: seq<string>)

  /** The tables of the one database every service writes to. */
  class Database {
    var incidents: map<Id, Incident>
    var resources: map<Id, Resource>
    var assignments: seq<Assignment>
    var natures: map<Id, Nature>
    var protocols: map<Id, Protocol>
    var users: set<Id>

    /** Every row is stored under its own primary key. */
    ghost predicate Valid()
      reads this
    {
      && (forall k :: k in incidents ==> incidents[k].id == k)
      && (forall k :: k in resources ==> resources[k].id == k)
      && (forall k :: k in natures ==> natures[k].id == k)
      && (forall k :: k in protocols ==> protocols[k].id == k)
    }

    constructor (users: set<Id>, protocols: map<Id, Protocol>)
      requires forall k :: k in protocols ==> protocols[k].id == k
      ensures Valid()
      ensures this.users == users && this.protocols == protocols
      ensures incidents == map[] && resources == map[] && assignments == [] && natures == map[]
    {
      this.users := users;
      this.protocols := protocols;
      incidents, resources, assignments, natures := map[], map[], [], map[];
    }
  }
}
