/** The incidents service: call intake, which validates the references of a new
    incident, stores it and announces it, and the table of incident natures. */
module Incidents {
  import opened Common
  import opened Entities
  import Dispatch

  /** The fields a call taker submits for a new incident. */
  datatype IncidentDraft = IncidentDraft(
    callerName: string,
    callerPhone: string,
    address: string,
    addressNotes: Option<string>,
    latitude: Coord,
    longitude: Coord,
    narrative: string,
    priority: Priority,
    protocolId: Id,
    operatorId: Id)

  /** `createIncident` on the protocols table and the user ids: the protocol is
      looked up first, then the operator; a valid draft becomes an incident awaiting
      dispatch, located at the GeoJSON point (longitude, latitude). */
  function Intake(protocols: map<Id, Protocol>, users: set<Id>, dto: IncidentDraft, newId: Id, now: nat): (r: Result<Incident>)
    ensures r.Ok? <==> dto.protocolId in protocols && dto.operatorId in users
    ensures dto.protocolId !in protocols ==> r == Err(ProtocolNotFound(dto.protocolId))
    ensures dto.protocolId in protocols && dto.operatorId !in users ==> r == Err(OperatorNotFound(dto.operatorId))
    ensures r.Ok? ==>
      && r.value.id == newId && r.value.createdAt == now
      && r.value.status == AwaitingDispatch
      && r.value.coordinates.longitude == dto.longitude && r.value.coordinates.latitude == dto.latitude
      && r.value.protocolId == dto.protocolId && r.value.operatorId == dto.operatorId
      && r.value.priority == dto.priority && r.value.narrative == dto.narrative
  {
    if dto.protocolId !in protocols then Err(ProtocolNotFound(dto.protocolId))
    else if dto.operatorId !in users then Err(OperatorNotFound(dto.operatorId))
    else
      Ok(Incident(newId, dto.callerName, dto.callerPhone, dto.address, dto.addressNotes,
                  Point(dto.longitude, dto.latitude), dto.narrative, AwaitingDispatch, dto.priority,
                  dto.protocolId, dto.operatorId, now))
  }

  /** A newly taken call joins the dispatch queue: every queue of the new table holds it. */
  lemma IntakeJoinsQueue(incidents: map<Id, Incident>, protocols: map<Id, Protocol>, users: set<Id>,
                         dto: IncidentDraft, newId: Id, now: nat, q: seq<Incident>)
    requires Intake(protocols, users, dto, newId, now).Ok?
    requires Dispatch.IsQueue(incidents[newId := Intake(protocols, users, dto, newId, now).value], q)
    ensures Intake(protocols, users, dto, newId, now).value in q
  {
    var x := Intake(protocols, users, dto, newId, now).value;
    assert incidents[newId := x][newId] == x;
  }

  /** Storing a new incident keeps the dispatch tables consistent. */
  lemma IntakeKeepsConsistency(incidents: map<Id, Incident>, resources: map<Id, Resource>, assignments: seq<Assignment>,
                               protocols: map<Id, Protocol>, users: set<Id>, dto: IncidentDraft, newId: Id, now: nat)
    requires newId !in incidents
    requires Dispatch.Consistent(incidents, resources, assignments)
    requires Intake(protocols, users, dto, newId, now).Ok?
    ensures Dispatch.Consistent(incidents[newId := Intake(protocols, users, dto, newId, now).value], resources, assignments)
  {
    var x := Intake(protocols, users, dto, newId, now).value;
    var after := incidents[newId := x];
    forall i | 0 <= i < |assignments|
      ensures Dispatch.Active(after, resources, assignments[i])
    {
      assert Dispatch.Active(incidents, resources, assignments[i]);
    }
    forall k | k in after && after[k].status == Dispatched
      ensures Dispatch.HasUnit(assignments, k)
    {
      assert k in incidents;
    }
  }

  /** The round trip of the system: a call that is taken joins the queue;
      assigning it one available resource succeeds and dispatches it; afterwards no
      queue holds the call and no availability list holds the resource. */
  lemma EndToEnd(incidents: map<Id, Incident>, resources: map<Id, Resource>, assignments: seq<Assignment>,
                 protocols: map<Id, Protocol>, users: set<Id>, dto: IncidentDraft, newId: Id, now: nat,
                 unit: Id, later: nat)
    requires newId !in incidents
    requires Intake(protocols, users, dto, newId, now).Ok?
    requires unit in resources && resources[unit].status == Available
    ensures var x := Intake(protocols, users, dto, newId, now).value;
      var taken := incidents[newId := x];
      && (forall q :: Dispatch.IsQueue(taken, q) ==> x in q)
      && Dispatch.Assign(taken, resources, assignments, newId, [unit], later).Ok?
    ensures var x := Intake(protocols, users, dto, newId, now).value;
      var taken := incidents[newId := x];
      var c := Dispatch.Assign(taken, resources, assignments, newId, [unit], later).value;
      && c.incident == x.(status := Dispatched)
      && (forall q: seq<Incident> :: Dispatch.IsQueue(c.incidents, q) ==> forall i :: 0 <= i < |q| ==> q[i].id != newId)
      && (forall rs: seq<Resource> :: Dispatch.IsAvailableList(c.resources, rs) ==> forall i :: 0 <= i < |rs| ==> rs[i].id != unit)
  {
    var x := Intake(protocols, users, dto, newId, now).value;
    var taken := incidents[newId := x];
    forall q | Dispatch.IsQueue(taken, q)
      ensures x in q
    {
      IntakeJoinsQueue(incidents, protocols, users, dto, newId, now, q);
    }
    Dispatch.AssignSuccess(taken, resources, assignments, newId, [unit], later);
  }

  /** The fields of a new nature. */
  datatype NatureDraft = NatureDraft(code: string, name: string, defaultPriority: Priority)

  /** A partial update of a nature: the fields present replace the stored ones. */
  datatype NaturePatch = NaturePatch(code: Option<string>, name: Option<string>, defaultPriority: Option<Priority>)

  /** `preload` of a nature: the stored row with the present fields of the patch over it. */
  function MergeNature(n: Nature, patch: NaturePatch): (r: Nature)
    ensures r.id == n.id
  {
    Nature(
      n.id,
      if patch.code.Some? then patch.code.value else n.code,
      if patch.name.Some? then patch.name.value else n.name,
      if patch.defaultPriority.Some? then patch.defaultPriority.value else n.defaultPriority)
  }

  /** Merging keeps what the patch leaves out, takes what it carries, and merging
      the same patch twice is merging it once. */
  lemma MergeNatureLaws(n: Nature, patch: NaturePatch)
    ensures MergeNature(n, NaturePatch(None, None, None)) == n
    ensures patch.code.Some? ==> MergeNature(n, patch).code == patch.code.value
    ensures patch.code.None? ==> MergeNature(n, patch).code == n.code
    ensures patch.name.Some? ==> MergeNature(n, patch).name == patch.name.value
    ensures patch.name.None? ==> MergeNature(n, patch).name == n.name
    ensures patch.defaultPriority.Some? ==> MergeNature(n, patch).defaultPriority == patch.defaultPriority.value
    ensures patch.defaultPriority.None? ==> MergeNature(n, patch).defaultPriority == n.defaultPriority
    ensures MergeNature(MergeNature(n, patch), patch) == MergeNature(n, patch)
  {
  }

  class IncidentsService {
    const db: Database
    /** The payloads emitted on the `incident.created` event, oldest first. */
    var created: seq<Incident>

    constructor (db: Database)
      ensures this.db == db && created == []
    {
      this.db := db;
      created := [];
    }

    /** `createIncident`: a rejected draft stores and emits nothing; an accepted one
        is stored under its new id and then emitted, as stored. */
    method CreateIncident(dto: IncidentDraft, newId: Id, now: nat) returns (r: Result<Incident>)
      requires db.Valid() && newId !in db.incidents
      modifies db`incidents, this`created
      ensures r == Intake(db.protocols, db.users, dto, newId, now)
      ensures r.Ok? ==> db.incidents == old(db.incidents)[newId := r.value] && created == old(created) + [r.value]
      ensures r.Err? ==> db.incidents == old(db.incidents) && created == old(created)
      ensures db.Valid()
    {
      if dto.protocolId !in db.protocols {
        return Err(ProtocolNotFound(dto.protocolId));
      }
      if dto.operatorId !in db.users {
        return Err(OperatorNotFound(dto.operatorId));
      }
      var coordinates := Point(dto.longitude, dto.latitude);
      var incident := Incident(newId, dto.callerName, dto.callerPhone, dto.address, dto.addressNotes,
                               coordinates, dto.narrative, AwaitingDispatch, dto.priority,
                               dto.protocolId, dto.operatorId, now);
      db.incidents := db.incidents[newId := incident];
      created := created + [incident];
      r := Ok(incident);
    }

    /** Nature `create`: the new row under its generated id. */
    method CreateNature(dto: NatureDraft, newId: Id) returns (n: Nature)
      requires db.Valid() && newId !in db.natures
      modifies db`natures
      ensures n == Nature(newId, dto.code, dto.name, dto.defaultPriority)
      ensures db.natures == old(db.natures)[newId := n]
      ensures db.Valid()
    {
      n := Nature(newId, dto.code, dto.name, dto.defaultPriority);
      db.natures := db.natures[newId := n];
    }

    /** Nature `findOne`: the stored row, or not found. */
    method FindNature(id: Id) returns (r: Result<Nature>)
      ensures id in db.natures <==> r.Ok?
      ensures r.Ok? ==> r.value == db.natures[id]
      ensures r.Err? ==> r.error == NatureNotFound(id)
    {
      if id !in db.natures {
        return Err(NatureNotFound(id));
      }
      r := Ok(db.natures[id]);
    }

    /** Nature `update`: an unknown id is not found and changes nothing; a known
        one is replaced by the merge of the patch over it. */
    method UpdateNature(id: Id, patch: NaturePatch) returns (r: Result<Nature>)
      requires db.Valid()
      modifies db`natures
      ensures id !in old(db.natures) ==> r == Err(NatureNotFound(id)) && db.natures == old(db.natures)
      ensures id in old(db.natures) ==>
        && r == Ok(MergeNature(old(db.natures)[id], patch))
        && db.natures == old(db.natures)[id := r.value]
      ensures db.Valid()
    {
      if id !in db.natures {
        return Err(NatureNotFound(id));
      }
      var nature := MergeNature(db.natures[id], patch);
      db.natures := db.natures[id := nature];
      r := Ok(nature);
    }

    /** Nature `remove`: the delete affects no row exactly when the id is unknown,
        and that is reported as not found. */
    method RemoveNature(id: Id) returns (r: Result<()>)
      requires db.Valid()
      modifies db`natures
      ensures r.Ok? <==> id in old(db.natures)
      ensures r.Err? ==> r.error == NatureNotFound(id)
      ensures db.natures == old(db.natures) - {id}
      ensures db.Valid()
    {
      var affected := if id in db.natures then 1 else 0;
      db.natures := db.natures - {id};
      if affected == 0 {
        return Err(NatureNotFound(id));
      }
      r := Ok(());
    }
  }
}
