/** The dispatcher's client-side store: the queue and the available resources it
    shows, the reducers that the server's events drive, and the connection state. */
module ClientStore {
  import opened Common
  import opened Entities
  import opened Sorting
  import Dispatch

  // ---------------------------------------------------------------------------
  // Reducers

  /** The incidents of a fetched list that await dispatch, in list order. */
  function AwaitingOnly(incidents: seq<Incident>): (r: seq<Incident>)
    ensures forall x :: x in r <==> x in incidents && x.status == AwaitingDispatch
  {
    Filter((x: Incident) => x.status == AwaitingDispatch, incidents)
  }

  /** The resources of a fetched list that are available, in list order. */
  function AvailableOnly(resources: seq<Resource>): (r: seq<Resource>)
    ensures forall x :: x in r <==> x in resources && x.status == Available
  {
    Filter((x: Resource) => x.status == Available, resources)
  }

  /** `_handleIncidentNew`: the incident goes to the back of the queue. */
  function QueueAfterNew(queue: seq<Incident>, incident: Incident): (r: seq<Incident>)
    ensures |r| == |queue| + 1 && r[..|queue|] == queue && r[|queue|] == incident
  {
    queue + [incident]
  }

  /** The queue without the entries carrying the given id, the rest in order. */
  function RemoveById(queue: seq<Incident>, id: Id): (r: seq<Incident>)
    ensures forall x :: x in r <==> x in queue && x.id != id
    ensures |r| <= |queue|
  {
    Filter((x: Incident) => x.id != id, queue)
  }

  /** Removal keeps the relative order: it works piecewise on a split queue, and a
      queue without the id is left as it is. */
  lemma RemoveByIdOrder(a: seq<Incident>, b: seq<Incident>, id: Id)
    ensures RemoveById(a + b, id) == RemoveById(a, id) + RemoveById(b, id)
    ensures (forall x :: x in a ==> x.id != id) ==> RemoveById(a, id) == a
  {
    FilterAppend((x: Incident) => x.id != id, a, b);
    if forall x :: x in a ==> x.id != id {
      FilterKeepsAll((x: Incident) => x.id != id, a);
    }
  }

  /** Every entry of the list carrying the resource's id becomes that resource; the
      others stay where they were. */
  function ReplaceById(resources: seq<Resource>, resource: Resource): (r: seq<Resource>)
    ensures |r| == |resources|
    ensures forall i :: 0 <= i < |r| ==> r[i] == (if resources[i].id == resource.id then resource else resources[i])
  {
    seq(|resources|, i requires 0 <= i < |resources| =>
      if resources[i].id == resource.id then resource else resources[i])
  }

  /** Replacing twice with the same resource is replacing once, and a list without
      its id is unchanged. */
  lemma ReplaceByIdLaws(resources: seq<Resource>, resource: Resource)
    ensures ReplaceById(ReplaceById(resources, resource), resource) == ReplaceById(resources, resource)
    ensures (forall i :: 0 <= i < |resources| ==> resources[i].id != resource.id) ==> ReplaceById(resources, resource) == resources
  {
  }

  // ---------------------------------------------------------------------------
  // The `incident:assigned` payload

  /** What arrives on `incident:assigned`: the server sends the bare incident; the
      handler is written for an object with `incident` and `resource` fields. */
  datatype AssignedPayload = BareIncident(incident: Incident) | IncidentWithResource(incident: Incident, resource: Resource)

  /** The payload a client receives for a gateway broadcast, if it is `incident:assigned`. */
  function Received(m: Dispatch.Message): (r: Option<AssignedPayload>)
    ensures m.IncidentAssigned? <==> r.Some?
    ensures r.Some? ==> r.value == BareIncident(m.incident)
  {
    match m
    case IncidentNew(_) => None
    case IncidentAssigned(incident) => Some(BareIncident(incident))
  }

  /** The effect of the as-written handler: the new queue and list, or a TypeError
      that aborts the update. */
  datatype Outcome = Applied(queue: seq<Incident>, resources: seq<Resource>) | TypeError

  /** The handler as written. On a bare incident, `assignment.incident.id` and
      `assignment.resource.id` are read inside the `filter` and `map` callbacks,
      so it throws as soon as one callback runs: when the queue or the resource
      list is non-empty. With both empty no callback runs and the update completes. */
  function AssignedAsWritten(queue: seq<Incident>, resources: seq<Resource>, payload: AssignedPayload): (r: Outcome)
    ensures r.TypeError? <==> payload.BareIncident? && (queue != [] || resources != [])
    ensures r.Applied? && payload.IncidentWithResource? ==>
      r.queue == RemoveById(queue, payload.incident.id) && r.resources == ReplaceById(resources, payload.resource)
    ensures r.Applied? && payload.BareIncident? ==> r.queue == queue && r.resources == resources
  {
    match payload
    case BareIncident(_) =>
      if queue != [] || resources != [] then TypeError else Applied([], [])
    case IncidentWithResource(incident, resource) =>
      Applied(RemoveById(queue, incident.id), ReplaceById(resources, resource))
  }

  /** As written, no broadcast of `incident:assigned` ever changes the store: the
      handler throws whenever the queue or the resource list holds anything, and
      otherwise leaves both empty, so a dispatched incident stays listed. */
  lemma AssignedBroadcastLeavesStore(m: Dispatch.Message, queue: seq<Incident>, resources: seq<Resource>)
    requires m.IncidentAssigned?
    ensures Received(m).Some?
    ensures AssignedAsWritten(queue, resources, Received(m).value).TypeError? <==> queue != [] || resources != []
    ensures AssignedAsWritten(queue, resources, Received(m).value).Applied? ==>
      AssignedAsWritten(queue, resources, Received(m).value) == Applied(queue, resources)
  {
  }

  /** The handler for the payload the server sends: the incident leaves the queue by id. */
  function AssignedCorrected(queue: seq<Incident>, incident: Incident): (r: seq<Incident>)
    ensures forall x :: x in r <==> x in queue && x.id != incident.id
  {
    RemoveById(queue, incident.id)
  }

  /** With the corrected handler a client showing the server's queue shows it
      again after a successful assignment: the dispatched incident leaves, the rest
      stay in order. */
  lemma CorrectedHandlerMirrorsQueue(incidents: map<Id, Incident>, resources: map<Id, Resource>,
                                     assignments: seq<Assignment>, incidentId: Id, ids: seq<Id>, now: nat,
                                     q: seq<Incident>)
    requires forall k :: k in incidents ==> incidents[k].id == k
    requires Dispatch.IsQueue(incidents, q)
    requires Dispatch.Assign(incidents, resources, assignments, incidentId, ids, now).Ok?
    ensures var c := Dispatch.Assign(incidents, resources, assignments, incidentId, ids, now).value;
      Dispatch.IsQueue(c.incidents, AssignedCorrected(q, c.incident))
  {
    var c := Dispatch.Assign(incidents, resources, assignments, incidentId, ids, now).value;
    Dispatch.AssignSuccess(incidents, resources, assignments, incidentId, ids, now);
    var r := AssignedCorrected(q, c.incident);
    forall k | k in c.incidents && c.incidents[k].status == AwaitingDispatch
      ensures c.incidents[k] in r
    {
      assert k != incidentId;
      assert incidents[k] in q;
    }
    FilterPairwise((x: Incident) => x.id != c.incident.id, (a: Incident, b: Incident) => a.id != b.id, q);
    FilterPairwise((x: Incident) => x.id != c.incident.id, Dispatch.QueueBefore, q);
    forall i | 0 <= i < |r|
      ensures r[i].id in c.incidents && c.incidents[r[i].id] == r[i] && r[i].status == AwaitingDispatch
    {
      assert r[i] in q;
    }
  }

  // ---------------------------------------------------------------------------
  // The store

  /** A token is present when it is a non-empty string. */
  predicate HasToken(token: Option<string>) {
    token.Some? && token.value != ""
  }

  /** The body of `POST /dispatch/assign`. */
  datatype AssignRequest = AssignRequest(token: string, incidentId: Id, resourceIds: seq<Id>)

  class DispatchStore {
    /** The socket the store holds, by number; it is set only by the `connect` event. */
    var socket: Option<nat>
    var isConnected: bool
    var incidentQueue: seq<Incident>
    var availableResources: seq<Resource>
    /** How many sockets `io` has opened. */
    var socketsOpened: nat

    constructor ()
      ensures socket == None && !isConnected && incidentQueue == [] && availableResources == [] && socketsOpened == 0
    {
      socket, isConnected, incidentQueue, availableResources, socketsOpened := None, false, [], [], 0;
    }

    /** `connect`: nothing when a socket is held; otherwise a new socket is opened
        (it is stored once it reports `connect`). */
    method Connect()
      modifies this`socketsOpened
      ensures old(socket).Some? ==> socketsOpened == old(socketsOpened)
      ensures old(socket).None? ==> socketsOpened == old(socketsOpened) + 1
    {
      if socket.Some? {
        return;
      }
      socketsOpened := socketsOpened + 1;
    }

    /** The socket's `connect` event. */
    method OnSocketConnect(s: nat)
      modifies this`socket, this`isConnected
      ensures socket == Some(s) && isConnected
    {
      socket, isConnected := Some(s), true;
    }

    /** The socket's `disconnect` event. */
    method OnSocketDisconnect()
      modifies this`socket, this`isConnected
      ensures socket == None && !isConnected
    {
      socket, isConnected := None, false;
    }

    /** `disconnect`: the store drops its socket and reports itself disconnected. */
    method Disconnect()
      modifies this`socket, this`isConnected
      ensures socket == None && !isConnected
    {
      socket := None;
      isConnected := false;
    }

    /** `loadInitialData`, given the token and what the two fetches produced (None
        when either failed): without a token, or on a failure, nothing changes. */
    method LoadInitialData(token: Option<string>, fetched: Option<(seq<Incident>, seq<Resource>)>)
      modifies this`incidentQueue, this`availableResources
      ensures !HasToken(token) || fetched.None? ==>
        incidentQueue == old(incidentQueue) && availableResources == old(availableResources)
      ensures HasToken(token) && fetched.Some? ==>
        incidentQueue == AwaitingOnly(fetched.value.0) && availableResources == AvailableOnly(fetched.value.1)
    {
      if !HasToken(token) {
        return;
      }
      if fetched.None? {
        return;
      }
      var (incidents, resources) := fetched.value;
      incidentQueue := AwaitingOnly(incidents);
      availableResources := AvailableOnly(resources);
    }

    /** `assignResources`: the request it posts, absent without a token, and whether
        it alerts the user (no token, or a failed response). The store itself is
        left to the server's events. */
    method AssignResources(token: Option<string>, incidentId: Id, resourceIds: seq<Id>, responseOk: bool)
      returns (request: Option<AssignRequest>, alerted: bool)
      ensures request.Some? <==> HasToken(token)
      ensures request.Some? ==> request.value == AssignRequest(token.value, incidentId, resourceIds)
      ensures alerted <==> !HasToken(token) || !responseOk
    {
      if !HasToken(token) {
        return None, true;
      }
      request := Some(AssignRequest(token.value, incidentId, resourceIds));
      alerted := !responseOk;
    }

    method HandleIncidentNew(incident: Incident)
      modifies this`incidentQueue
      ensures incidentQueue == QueueAfterNew(old(incidentQueue), incident)
    {
      incidentQueue := incidentQueue + [incident];
    }

    /** `_handleIncidentAssigned` as written: a payload with both fields is applied;
        the bare incident fails once a callback runs, and the store keeps its state. */
    method HandleIncidentAssigned(payload: AssignedPayload) returns (failed: bool)
      modifies this`incidentQueue, this`availableResources
      ensures failed <==> AssignedAsWritten(old(incidentQueue), old(availableResources), payload) == TypeError
      ensures failed ==> incidentQueue == old(incidentQueue) && availableResources == old(availableResources)
      ensures !failed ==>
        && incidentQueue == AssignedAsWritten(old(incidentQueue), old(availableResources), payload).queue
        && availableResources == AssignedAsWritten(old(incidentQueue), old(availableResources), payload).resources
    {
      if payload.BareIncident? {
        // the first callback to run reads a field of `undefined`
        return incidentQueue != [] || availableResources != [];
      }
      incidentQueue := RemoveById(incidentQueue, payload.incident.id);
      availableResources := ReplaceById(availableResources, payload.resource);
      failed := false;
    }

    /** The corrected handler for the bare incident the server broadcasts. */
    method HandleIncidentDispatched(incident: Incident)
      modifies this`incidentQueue
      ensures incidentQueue == AssignedCorrected(old(incidentQueue), incident)
    {
      incidentQueue := RemoveById(incidentQueue, incident.id);
    }
  }
}
