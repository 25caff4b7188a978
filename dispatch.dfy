/** The dispatch service: the queue and availability views, the assignment
    transaction that links resources to an incident, and the gateway that
    broadcasts the results. */
module Dispatch {
  import opened Common
  import opened Entities
  import opened Sorting

  // ---------------------------------------------------------------------------
  // Gateway

  /** What the WebSocket gateway emits to every connected client. */
  datatype Message = IncidentNew(incident: Incident) | IncidentAssigned(incident: Incident)

  /** The gateway, reduced to the log of what it has broadcast. */
  class Gateway {
    var sent: seq<Message>

    constructor ()
      ensures sent == []
    {
      sent := [];
    }

    /** Event `incident:new`, whose payload is the incident. */
    method NotifyNewIncident(incident: Incident)
      modifies this`sent
      ensures sent == old(sent) + [IncidentNew(incident)]
    {
      sent := sent + [IncidentNew(incident)];
    }

    /** Event `incident:assigned`, whose payload is the bare incident. */
    method NotifyIncidentAssigned(incident: Incident)
      modifies this`sent
      ensures sent == old(sent) + [IncidentAssigned(incident)]
    {
      sent := sent + [IncidentAssigned(incident)];
    }
  }

  // ---------------------------------------------------------------------------
  // Queue and availability views

  /** Urgency of a priority level: red is the most urgent, info the least. */
  function Rank(p: Priority): nat {
    match p
    case Red => 3
    case Yellow => 2
    case Green => 1
    case Info => 0
  }

  /** Dispatch order: more urgent first, then the earlier call first. */
  predicate QueueBefore(a: Incident, b: Incident) {
    Rank(a.priority) > Rank(b.priority)
    || (Rank(a.priority) == Rank(b.priority) && a.createdAt <= b.createdAt)
  }

  lemma QueueOrderTotal()
    ensures TotalPreorder(QueueBefore)
  {
  }

  /** The position of a level in the declaration of the priority enumeration
      (red, yellow, green, info), which is the order a PostgreSQL enum column sorts by. */
  function DeclarationIndex(p: Priority): nat {
    match p
    case Red => 0
    case Yellow => 1
    case Green => 2
    case Info => 3
  }

  /** The order `ORDER BY priority DESC, createdAt ASC` produces on that enum
      column: between two levels it is the reverse of the dispatch order. */
  predicate DatabaseQueueBefore(a: Incident, b: Incident)
    ensures a.priority != b.priority ==> (DatabaseQueueBefore(a, b) <==> QueueBefore(b, a))
  {
    DeclarationIndex(a.priority) > DeclarationIndex(b.priority)
    || (DeclarationIndex(a.priority) == DeclarationIndex(b.priority) && a.createdAt <= b.createdAt)
  }

  /** As written, the database places an informational call ahead of a red
      emergency, whatever their creation times; the intended order does the opposite. */
  lemma DatabaseOrderPutsInfoFirst(red: Incident, info: Incident)
    requires red.priority == Red && info.priority == Info
    ensures DatabaseQueueBefore(info, red) && !DatabaseQueueBefore(red, info)
    ensures QueueBefore(red, info) && !QueueBefore(info, red)
  {
  }

  /** q is the dispatch queue of the incidents table: exactly its incidents
      awaiting dispatch, each once, in dispatch order. */
  ghost predicate IsQueue(incidents: map<Id, Incident>, q: seq<Incident>) {
    && (forall i :: 0 <= i < |q| ==>
          q[i].id in incidents && incidents[q[i].id] == q[i] && q[i].status == AwaitingDispatch)
    && (forall k :: k in incidents && incidents[k].status == AwaitingDispatch ==> incidents[k] in q)
    && (forall i, j :: 0 <= i < j < |q| ==> q[i].id != q[j].id)
    && SortedBy(QueueBefore, q)
  }

  /** rs lists exactly the available resources of the table, each once. */
  ghost predicate IsAvailableList(resources: map<Id, Resource>, rs: seq<Resource>) {
    && (forall i :: 0 <= i < |rs| ==>
          rs[i].id in resources && resources[rs[i].id] == rs[i] && rs[i].status == Available)
    && (forall k :: k in resources && resources[k].status == Available ==> resources[k] in rs)
    && (forall i, j :: 0 <= i < j < |rs| ==> rs[i].id != rs[j].id)
  }

  /** Red before yellow before green before info, and within one level the
      earlier call first: calls green@3, red@1, red@2 and yellow@1 can only be
      queued as red@1, red@2, yellow@1, green@3. */
  lemma QueueExample(incidents: map<Id, Incident>, q: seq<Incident>,
                     g3: Incident, r1: Incident, r2: Incident, y1: Incident)
    requires g3.priority == Green && g3.createdAt == 3
    requires r1.priority == Red && r1.createdAt == 1
    requires r2.priority == Red && r2.createdAt == 2
    requires y1.priority == Yellow && y1.createdAt == 1
    requires forall x :: x in [g3, r1, r2, y1] ==> x.status == AwaitingDispatch && x.id in incidents && incidents[x.id] == x
    requires forall k :: k in incidents ==> incidents[k] in [g3, r1, r2, y1]
    requires IsQueue(incidents, q)
    ensures q == [r1, r2, y1, g3]
  {
    var order := [r1, r2, y1, g3];
    assert forall i :: 0 <= i < |q| ==> q[i] in order;
    assert forall x :: x in order ==> x in q;
    assert forall i, j :: 0 <= i < j < |q| ==> QueueBefore(q[i], q[j]) && q[i] != q[j];
    ExampleOrder(q, g3, r1, r2, y1);
  }

  /** A list of the four calls, each listed, in strict dispatch order, is the expected one. */
  lemma ExampleOrder(q: seq<Incident>, g3: Incident, r1: Incident, r2: Incident, y1: Incident)
    requires g3.priority == Green && g3.createdAt == 3
    requires r1.priority == Red && r1.createdAt == 1
    requires r2.priority == Red && r2.createdAt == 2
    requires y1.priority == Yellow && y1.createdAt == 1
    requires forall i :: 0 <= i < |q| ==> q[i] in [r1, r2, y1, g3]
    requires forall x :: x in [r1, r2, y1, g3] ==> x in q
    requires forall i, j :: 0 <= i < j < |q| ==> QueueBefore(q[i], q[j]) && q[i] != q[j]
    ensures q == [r1, r2, y1, g3]
  {
    var order := [r1, r2, y1, g3];
    // The place of each queued call in the expected order.
    var pos := seq(|q|, i requires 0 <= i < |q| => Place(q[i], order));
    forall i, j | 0 <= i < j < |q|
      ensures pos[i] < pos[j]
    {
      ExamplePlaces(q[i], q[j], g3, r1, r2, y1);
    }
    forall v | 0 <= v < 4
      ensures v in pos
    {
      assert order[v] in q;
      var i :| 0 <= i < |q| && q[i] == order[v];
      assert pos[i] == v;
    }
    AllPlacesTaken(pos, 4);
    assert forall i :: 0 <= i < |q| ==> q[i] == order[pos[i]] == order[i];
  }

  /** A strictly increasing sequence of places below n that takes each of them is 0, 1, ..., n - 1. */
  lemma AllPlacesTaken(pos: seq<int>, n: nat)
    requires forall i :: 0 <= i < |pos| ==> 0 <= pos[i] < n
    requires forall i, j :: 0 <= i < j < |pos| ==> pos[i] < pos[j]
    requires forall v :: 0 <= v < n ==> v in pos
    ensures |pos| == n
    ensures forall i :: 0 <= i < n ==> pos[i] == i
  {
    StrictlyIncreasing(pos, n);
    forall v | 0 <= v < n
      ensures v < |pos| && pos[v] == v
    {
      PlaceTaken(pos, n, v);
    }
    if n > 0 {
      PlaceTaken(pos, n, n - 1);
    }
  }

  lemma {:induction false} PlaceTaken(pos: seq<int>, n: nat, v: nat)
    requires forall i :: 0 <= i < |pos| ==> i <= pos[i]
    requires forall i, j :: 0 <= i < j < |pos| ==> pos[i] < pos[j]
    requires forall v :: 0 <= v < n ==> v in pos
    requires v < n
    ensures v < |pos| && pos[v] == v
  {
    assert v in pos;
    var k :| 0 <= k < |pos| && pos[k] == v;
    if v > 0 {
      PlaceTaken(pos, n, v - 1);
      assert pos[v - 1] == v - 1;
    }
  }

  /** The first place of x in a four-entry order. */
  function Place(x: Incident, order: seq<Incident>): (r: nat)
    requires |order| == 4 && x in order
    ensures r < 4 && order[r] == x
  {
    if order[0] == x then 0 else if order[1] == x then 1 else if order[2] == x then 2 else 3
  }

  lemma ExamplePlaces(a: Incident, b: Incident, g3: Incident, r1: Incident, r2: Incident, y1: Incident)
    requires g3.priority == Green && g3.createdAt == 3
    requires r1.priority == Red && r1.createdAt == 1
    requires r2.priority == Red && r2.createdAt == 2
    requires y1.priority == Yellow && y1.createdAt == 1
    requires a in [r1, r2, y1, g3] && b in [r1, r2, y1, g3]
    requires QueueBefore(a, b) && a != b
    ensures Place(a, [r1, r2, y1, g3]) < Place(b, [r1, r2, y1, g3])
  {
  }

  /** A strictly increasing sequence of values below n has at most n entries, and
      the entry at i is at least i. */
  lemma StrictlyIncreasing(pos: seq<int>, n: nat)
    requires forall i :: 0 <= i < |pos| ==> 0 <= pos[i] < n
    requires forall i, j :: 0 <= i < j < |pos| ==> pos[i] < pos[j]
    ensures |pos| <= n
    ensures forall i :: 0 <= i < |pos| ==> i <= pos[i]
  {
    if |pos| > 0 {
      BelowGrows(pos, |pos| - 1);
    }
    forall i | 0 <= i < |pos|
      ensures i <= pos[i]
    {
      BelowGrows(pos, i);
    }
  }

  lemma {:induction false} BelowGrows(pos: seq<int>, i: nat)
    requires i < |pos|
    requires forall i :: 0 <= i < |pos| ==> 0 <= pos[i]
    requires forall i, j :: 0 <= i < j < |pos| ==> pos[i] < pos[j]
    ensures i <= pos[i]
  {
    if i > 0 {
      BelowGrows(pos, i - 1);
    }
  }

  // ---------------------------------------------------------------------------
  // The assignment transaction

  /** The keys `find({ where: { id: In(ids) } })` returns: every requested id
      that is stored, once, in the order of its first request. */
  function FoundIds(resources: map<Id, Resource>, ids: seq<Id>): (r: seq<Id>)
    ensures forall k :: k in r <==> k in ids && k in resources
    ensures |r| <= |ids|
    ensures Distinct(r)
  {
    if ids == [] then []
    else
      var prev := FoundIds(resources, ids[..|ids| - 1]);
      var last := ids[|ids| - 1];
      assert ids == ids[..|ids| - 1] + [last];
      if last in resources && last !in ids[..|ids| - 1] then prev + [last] else prev
  }

  /** The length check `resources.length !== dto.resourceIds.length` passes exactly
      when every requested id is stored and none is repeated, and then the rows
      come back in request order. */
  lemma {:induction false} FoundAllIff(resources: map<Id, Resource>, ids: seq<Id>)
    ensures |FoundIds(resources, ids)| == |ids| <==> Distinct(ids) && forall i :: 0 <= i < |ids| ==> ids[i] in resources
    ensures |FoundIds(resources, ids)| == |ids| ==> FoundIds(resources, ids) == ids
  {
    if ids != [] {
      var p, last := ids[..|ids| - 1], ids[|ids| - 1];
      assert ids == p + [last];
      FoundAllIff(resources, p);
      if |FoundIds(resources, ids)| == |ids| {
        assert |FoundIds(resources, p)| <= |p|;
        assert last in resources && last !in p;
        assert forall i :: 0 <= i < |p| ==> ids[i] == p[i];
      }
      if Distinct(ids) && forall i :: 0 <= i < |ids| ==> ids[i] in resources {
        assert forall i :: 0 <= i < |p| ==> ids[i] == p[i];
        assert Distinct(p);
        assert last !in p;
      }
    }
  }

  /** The resource the loop rejects: the first found one that is not available. */
  function FirstUnavailable(resources: map<Id, Resource>, found: seq<Id>): (r: Option<Id>)
    requires forall k :: k in found ==> k in resources
    ensures r.None? <==> forall k :: k in found ==> resources[k].status == Available
    ensures r.Some? ==> r.value in found && r.value in resources && resources[r.value].status != Available
  {
    if found == [] then None
    else if resources[found[0]].status != Available then Some(found[0])
    else FirstUnavailable(resources, found[1..])
  }

  lemma {:induction false} FirstUnavailableAt(resources: map<Id, Resource>, found: seq<Id>, i: nat)
    requires forall k :: k in found ==> k in resources
    requires i < |found|
    requires forall j :: 0 <= j < i ==> resources[found[j]].status == Available
    requires resources[found[i]].status != Available
    ensures FirstUnavailable(resources, found) == Some(found[i])
  {
    if i > 0 {
      FirstUnavailableAt(resources, found[1..], i - 1);
    }
  }

  /** The resources table after every resource in `ids` is set en route. */
  function EnRouteAll(resources: map<Id, Resource>, ids: seq<Id>): (r: map<Id, Resource>)
    ensures r.Keys == resources.Keys
    ensures forall k :: k in r ==> r[k].id == resources[k].id
  {
    map k | k in resources :: if k in ids then resources[k].(status := EnRoute) else resources[k]
  }

  /** One new assignment per resource, in order, all linking the incident. */
  function AssignmentsFor(incidentId: Id, ids: seq<Id>, now: nat): (r: seq<Assignment>)
    ensures |r| == |ids|
  {
    seq(|ids|, i requires 0 <= i < |ids| => Assignment(incidentId, ids[i], now))
  }

  /** The writes of a committed assignment: the updated incident and the new
      contents of the three tables. */
  datatype Commit = Commit(
    incident: Incident,
    incidents: map<Id, Incident>,
    resources: map<Id, Resource>,
    assignments: seq<Assignment>)

  /** The transaction of `assignResources` as one atomic step on the three tables:
      either the rejection it raises, or every write it commits. */
  function Assign(incidents: map<Id, Incident>, resources: map<Id, Resource>, assignments: seq<Assignment>,
                  incidentId: Id, ids: seq<Id>, now: nat): (r: Result<Commit>)
    ensures r.Ok? ==>
      && r.value.incidents.Keys == incidents.Keys && r.value.resources.Keys == resources.Keys
      && |r.value.assignments| >= |assignments| && r.value.assignments[..|assignments|] == assignments
    ensures r.Err? ==>
      r.error in {IncidentNotFound, IncidentNotAwaitingDispatch, ResourcesNotFound} || r.error.ResourceNotAvailable?
  {
    if incidentId !in incidents then Err(IncidentNotFound)
    else if incidents[incidentId].status != AwaitingDispatch then Err(IncidentNotAwaitingDispatch)
    else
      var found := FoundIds(resources, ids);
      if |found| != |ids| then Err(ResourcesNotFound)
      else match FirstUnavailable(resources, found)
        case Some(k) => Err(ResourceNotAvailable(resources[k].name))
        case None =>
          var incident := incidents[incidentId].(status := Dispatched);
          Ok(Commit(incident, incidents[incidentId := incident], EnRouteAll(resources, found),
                    assignments + AssignmentsFor(incidentId, found, now)))
  }

  /** The rejections, each detected before any write, in the order the service checks them. */
  lemma AssignRejections(incidents: map<Id, Incident>, resources: map<Id, Resource>, assignments: seq<Assignment>,
                         incidentId: Id, ids: seq<Id>, now: nat)
    ensures var r := Assign(incidents, resources, assignments, incidentId, ids, now);
      && (incidentId !in incidents ==> r == Err(IncidentNotFound))
      && (incidentId in incidents && incidents[incidentId].status != AwaitingDispatch ==>
            r == Err(IncidentNotAwaitingDispatch))
      && (incidentId in incidents && incidents[incidentId].status == AwaitingDispatch ==>
            ((!Distinct(ids) || exists i :: 0 <= i < |ids| && ids[i] !in resources) <==> r == Err(ResourcesNotFound)))
      && (incidentId in incidents && incidents[incidentId].status == AwaitingDispatch && Distinct(ids) &&
          (forall i :: 0 <= i < |ids| ==> ids[i] in resources) ==>
            ((exists i :: 0 <= i < |ids| && resources[ids[i]].status != Available) <==>
               r.Err? && r.error.ResourceNotAvailable?))
  {
    FoundAllIff(resources, ids);
  }

  /** `c` holds the writes of a commit: the incident is dispatched, every named
      resource is en route, the other resources are untouched, and exactly one new
      assignment links the incident to each named resource, after the old ones. */
  ghost predicate Committed(incidents: map<Id, Incident>, resources: map<Id, Resource>, assignments: seq<Assignment>,
                            incidentId: Id, ids: seq<Id>, now: nat, c: Commit) {
    && incidentId in incidents
    && c.incident == incidents[incidentId].(status := Dispatched)
    && c.incidents == incidents[incidentId := c.incident]
    && c.resources.Keys == resources.Keys
    && (forall k :: k in ids ==> k in resources && c.resources[k] == resources[k].(status := EnRoute))
    && (forall k :: k in resources && k !in ids ==> c.resources[k] == resources[k])
    && |c.assignments| == |assignments| + |ids|
    && c.assignments[..|assignments|] == assignments
    && (forall i :: 0 <= i < |ids| ==> c.assignments[|assignments| + i] == Assignment(incidentId, ids[i], now))
  }

  /** Success exactly when the incident awaits dispatch and the ids name distinct
      stored resources that are all available; a success commits exactly the writes above. */
  lemma AssignSuccess(incidents: map<Id, Incident>, resources: map<Id, Resource>, assignments: seq<Assignment>,
                      incidentId: Id, ids: seq<Id>, now: nat)
    ensures var r := Assign(incidents, resources, assignments, incidentId, ids, now);
      r.Ok? <==>
        && incidentId in incidents && incidents[incidentId].status == AwaitingDispatch
        && Distinct(ids)
        && (forall i :: 0 <= i < |ids| ==> ids[i] in resources && resources[ids[i]].status == Available)
    ensures var r := Assign(incidents, resources, assignments, incidentId, ids, now);
      r.Ok? ==> Committed(incidents, resources, assignments, incidentId, ids, now, r.value)
  {
    FoundAllIff(resources, ids);
    var r := Assign(incidents, resources, assignments, incidentId, ids, now);
    if r.Ok? {
      assert FoundIds(resources, ids) == ids;
    }
  }

  /** A second assignment of an incident that was just dispatched is always
      rejected, whatever resources it names. */
  lemma AssignTwiceFails(incidents: map<Id, Incident>, resources: map<Id, Resource>, assignments: seq<Assignment>,
                         incidentId: Id, ids: seq<Id>, now: nat, ids2: seq<Id>, later: nat)
    requires Assign(incidents, resources, assignments, incidentId, ids, now).Ok?
    ensures var c := Assign(incidents, resources, assignments, incidentId, ids, now).value;
      Assign(c.incidents, c.resources, c.assignments, incidentId, ids2, later) == Err(IncidentNotAwaitingDispatch)
  {
  }

  /** Once a resource is committed, any later request naming it is rejected:
      no resource is booked twice. */
  lemma SharedResourceFails(incidents: map<Id, Incident>, resources: map<Id, Resource>, assignments: seq<Assignment>,
                            incidentId: Id, ids: seq<Id>, now: nat,
                            otherId: Id, otherIds: seq<Id>, later: nat, shared: Id)
    requires Assign(incidents, resources, assignments, incidentId, ids, now).Ok?
    requires shared in ids && shared in otherIds
    ensures var c := Assign(incidents, resources, assignments, incidentId, ids, now).value;
      Assign(c.incidents, c.resources, c.assignments, otherId, otherIds, later).Err?
  {
    var c := Assign(incidents, resources, assignments, incidentId, ids, now).value;
    AssignSuccess(incidents, resources, assignments, incidentId, ids, now);
    AssignSuccess(c.incidents, c.resources, c.assignments, otherId, otherIds, later);
    var j :| 0 <= j < |otherIds| && otherIds[j] == shared;
    assert c.resources[shared].status == EnRoute;
  }

  /** The assignment invariant. Every assignment links an
      incident that has left the queue to a resource that is no longer available;
      no resource is booked by two assignments; every dispatched incident has at
      least one assignment. */
  ghost predicate Consistent(incidents: map<Id, Incident>, resources: map<Id, Resource>, assignments: seq<Assignment>) {
    && (forall i :: 0 <= i < |assignments| ==> Active(incidents, resources, assignments[i]))
    && (forall i, j :: 0 <= i < j < |assignments| ==> assignments[i].resourceId != assignments[j].resourceId)
    && (forall k :: k in incidents && incidents[k].status == Dispatched ==> HasUnit(assignments, k))
  }

  ghost predicate Active(incidents: map<Id, Incident>, resources: map<Id, Resource>, a: Assignment) {
    && a.incidentId in incidents && incidents[a.incidentId].status != AwaitingDispatch
    && a.resourceId in resources && resources[a.resourceId].status != Available
  }

  ghost predicate HasUnit(assignments: seq<Assignment>, incidentId: Id) {
    exists i :: 0 <= i < |assignments| && assignments[i].incidentId == incidentId
  }

  /** The request check the assignment DTO evidently intends: at least one resource id
      (`@ArrayNotEmpty`; the `@IsNotEmpty` it has lets an empty array through). */
  predicate NonEmptyRequest(ids: seq<Id>) {
    |ids| > 0
  }

  /** A committed assignment of a non-empty request keeps the invariant. */
  lemma AssignPreservesConsistency(incidents: map<Id, Incident>, resources: map<Id, Resource>, assignments: seq<Assignment>,
                                   incidentId: Id, ids: seq<Id>, now: nat)
    requires Consistent(incidents, resources, assignments)
    requires NonEmptyRequest(ids)
    requires Assign(incidents, resources, assignments, incidentId, ids, now).Ok?
    ensures var c := Assign(incidents, resources, assignments, incidentId, ids, now).value;
      Consistent(c.incidents, c.resources, c.assignments)
  {
    var c := Assign(incidents, resources, assignments, incidentId, ids, now).value;
    AssignSuccess(incidents, resources, assignments, incidentId, ids, now);
    CommitKeepsActive(incidents, resources, assignments, incidentId, ids, now, c);
    CommitKeepsSingleBooking(incidents, resources, assignments, incidentId, ids, now, c);
    CommitKeepsUnits(incidents, resources, assignments, incidentId, ids, now, c);
  }

  lemma CommitKeepsActive(incidents: map<Id, Incident>, resources: map<Id, Resource>, assignments: seq<Assignment>,
                          incidentId: Id, ids: seq<Id>, now: nat, c: Commit)
    requires Committed(incidents, resources, assignments, incidentId, ids, now, c)
    requires forall i :: 0 <= i < |ids| ==> resources[ids[i]].status == Available
    requires forall i :: 0 <= i < |assignments| ==> Active(incidents, resources, assignments[i])
    ensures forall i :: 0 <= i < |c.assignments| ==> Active(c.incidents, c.resources, c.assignments[i])
  {
    var n := |assignments|;
    forall i | 0 <= i < |c.assignments|
      ensures Active(c.incidents, c.resources, c.assignments[i])
    {
      if i < n {
        assert c.assignments[i] == c.assignments[..n][i] == assignments[i];
        var a := assignments[i];
        assert Active(incidents, resources, a);
      } else {
        assert c.assignments[n + (i - n)] == Assignment(incidentId, ids[i - n], now);
      }
    }
  }

  lemma CommitKeepsSingleBooking(incidents: map<Id, Incident>, resources: map<Id, Resource>, assignments: seq<Assignment>,
                                 incidentId: Id, ids: seq<Id>, now: nat, c: Commit)
    requires Committed(incidents, resources, assignments, incidentId, ids, now, c)
    requires Distinct(ids)
    requires forall i :: 0 <= i < |ids| ==> resources[ids[i]].status == Available
    requires forall i :: 0 <= i < |assignments| ==> Active(incidents, resources, assignments[i])
    requires forall i, j :: 0 <= i < j < |assignments| ==> assignments[i].resourceId != assignments[j].resourceId
    ensures forall i, j :: 0 <= i < j < |c.assignments| ==> c.assignments[i].resourceId != c.assignments[j].resourceId
  {
    var n := |assignments|;
    var A := c.assignments;
    assert forall i :: 0 <= i < n ==> A[i] == A[..n][i] == assignments[i];
    assert forall i :: n <= i < |A| ==> A[n + (i - n)] == A[i] && A[i].resourceId == ids[i - n];
    forall i, j | 0 <= i < j < |A|
      ensures A[i].resourceId != A[j].resourceId
    {
      if j < n {
      } else if i < n {
        assert Active(incidents, resources, assignments[i]);
        assert resources[ids[j - n]].status == Available;
      } else {
        assert ids[i - n] != ids[j - n];
      }
    }
  }

  lemma CommitKeepsUnits(incidents: map<Id, Incident>, resources: map<Id, Resource>, assignments: seq<Assignment>,
                         incidentId: Id, ids: seq<Id>, now: nat, c: Commit)
    requires Committed(incidents, resources, assignments, incidentId, ids, now, c)
    requires NonEmptyRequest(ids)
    requires forall k :: k in incidents && incidents[k].status == Dispatched ==> HasUnit(assignments, k)
    ensures forall k :: k in c.incidents && c.incidents[k].status == Dispatched ==> HasUnit(c.assignments, k)
  {
    var n := |assignments|;
    forall k | k in c.incidents && c.incidents[k].status == Dispatched
      ensures HasUnit(c.assignments, k)
    {
      if k == incidentId {
        assert c.assignments[n + 0] == Assignment(incidentId, ids[0], now);
      } else {
        assert HasUnit(assignments, k);
        var i :| 0 <= i < n && assignments[i].incidentId == k;
        assert c.assignments[i] == c.assignments[..n][i];
      }
    }
  }

  /** As written, an empty request commits: an incident awaiting dispatch in a
      consistent database becomes dispatched with no assignment at all. */
  lemma EmptyRequestDispatchesWithoutUnit(incident: Incident, now: nat)
    requires incident.status == AwaitingDispatch
    ensures var incidents := map[incident.id := incident];
      && Consistent(incidents, map[], [])
      && Assign(incidents, map[], [], incident.id, [], now).Ok?
      && var c := Assign(incidents, map[], [], incident.id, [], now).value;
         && c.incident.status == Dispatched && c.assignments == []
         && !Consistent(c.incidents, c.resources, c.assignments)
  {
    var incidents := map[incident.id := incident];
    var c := Assign(incidents, map[], [], incident.id, [], now).value;
    assert c.incidents[incident.id].status == Dispatched;
  }

  /** After a commit the incident is gone from every queue view and the named
      resources from every availability view. */
  lemma AssignLeavesViews(incidents: map<Id, Incident>, resources: map<Id, Resource>, assignments: seq<Assignment>,
                          incidentId: Id, ids: seq<Id>, now: nat, q: seq<Incident>, rs: seq<Resource>)
    requires Assign(incidents, resources, assignments, incidentId, ids, now).Ok?
    requires var c := Assign(incidents, resources, assignments, incidentId, ids, now).value;
      IsQueue(c.incidents, q) && IsAvailableList(c.resources, rs)
    ensures forall i :: 0 <= i < |q| ==> q[i].id != incidentId
    ensures forall i :: 0 <= i < |rs| ==> rs[i].id !in ids
  {
    AssignSuccess(incidents, resources, assignments, incidentId, ids, now);
  }

  /** The loop of `assignResources` over the found resources: it stops at the
      first one that is not available; otherwise every one is set en route and
      gets its assignment. */
  method EnRouteEach(resources: map<Id, Resource>, found: seq<Id>, incidentId: Id, now: nat)
    returns (rejected: Option<Id>, updated: map<Id, Resource>, added: seq<Assignment>)
    requires forall k :: k in found ==> k in resources
    ensures rejected == FirstUnavailable(resources, found)
    ensures rejected.None? ==> updated == EnRouteAll(resources, found) && added == AssignmentsFor(incidentId, found, now)
  {
    updated, added := resources, [];
    for i := 0 to |found|
      invariant forall j :: 0 <= j < i ==> resources[found[j]].status == Available
      invariant added == AssignmentsFor(incidentId, found[..i], now)
      invariant updated == EnRouteAll(resources, found[..i])
    {
      var k := found[i];
      if resources[k].status != Available {
        FirstUnavailableAt(resources, found, i);
        return Some(k), updated, added;
      }
      assert found[..i + 1] == found[..i] + [k];
      updated := updated[k := resources[k].(status := EnRoute)];
      added := added + [Assignment(incidentId, k, now)];
    }
    assert found[..|found|] == found;
    rejected := None;
    assert forall k :: k in found ==> resources[k].status == Available;
  }

  // ---------------------------------------------------------------------------
  // The service

  class DispatchService {
    const db: Database
    const gateway: Gateway

    constructor (db: Database, gateway: Gateway)
      ensures this.db == db && this.gateway == gateway
    {
      this.db := db;
      this.gateway := gateway;
    }

    /** Listener of `incident.created`: announces the new incident to every client. */
    method HandleIncidentCreation(payload: Incident)
      modifies gateway`sent
      ensures gateway.sent == old(gateway.sent) + [IncidentNew(payload)]
    {
      gateway.NotifyNewIncident(payload);
    }

    /** The incidents awaiting dispatch, most urgent first, then earliest call first. */
    method GetQueue() returns (q: seq<Incident>)
      requires db.Valid()
      ensures IsQueue(db.incidents, q)
    {
      var table := db.incidents;
      var rest := table.Keys;
      q := [];
      QueueOrderTotal();
      while rest != {}
        invariant rest <= table.Keys
        invariant forall y :: y in q ==>
          y.id in table.Keys - rest && table[y.id] == y && y.status == AwaitingDispatch
        invariant forall k :: k in table.Keys - rest && table[k].status == AwaitingDispatch ==> table[k] in q
        invariant Distinct(q)
        invariant SortedBy(QueueBefore, q)
        decreases rest
      {
        var k :| k in rest;
        rest := rest - {k};
        if table[k].status == AwaitingDispatch {
          var x := table[k];
          assert x.id == k;
          assert x !in q;
          InsertBySorted(QueueBefore, x, q);
          InsertByDistinct(QueueBefore, x, q);
          InsertByMembers(QueueBefore, x, q);
          q := InsertBy(QueueBefore, x, q);
        }
      }
    }

    /** The resources that are available. */
    method GetAvailableResources() returns (rs: seq<Resource>)
      requires db.Valid()
      ensures IsAvailableList(db.resources, rs)
    {
      var table := db.resources;
      var rest := table.Keys;
      rs := [];
      while rest != {}
        invariant rest <= table.Keys
        invariant forall y :: y in rs ==>
          y.id in table.Keys - rest && table[y.id] == y && y.status == Available
        invariant forall k :: k in table.Keys - rest && table[k].status == Available ==> table[k] in rs
        invariant Distinct(rs)
        decreases rest
      {
        var k :| k in rest;
        rest := rest - {k};
        if table[k].status == Available {
          assert table[k].id == k;
          assert table[k] !in rs;
          rs := rs + [table[k]];
        }
      }
    }

    /** `assignResources`: the transaction on local copies of the rows, committed
        at the end, and the broadcast after the commit. A rejection writes nothing
        and broadcasts nothing. */
    method AssignResources(incidentId: Id, resourceIds: seq<Id>, now: nat) returns (r: Result<Incident>)
      requires db.Valid()
      modifies db`incidents, db`resources, db`assignments, gateway`sent
      ensures db.Valid()
      ensures match Assign(old(db.incidents), old(db.resources), old(db.assignments), incidentId, resourceIds, now)
        case Ok(c) =>
          && r == Ok(c.incident)
          && db.incidents == c.incidents && db.resources == c.resources && db.assignments == c.assignments
          && gateway.sent == old(gateway.sent) + [IncidentAssigned(c.incident)]
        case Err(e) =>
          && r == Err(e)
          && db.incidents == old(db.incidents) && db.resources == old(db.resources)
          && db.assignments == old(db.assignments)
          && gateway.sent == old(gateway.sent)
    {
      var incidents, resources := db.incidents, db.resources;
      // 1. the incident
      if incidentId !in incidents {
        return Err(IncidentNotFound);
      }
      var incident := incidents[incidentId];
      if incident.status != AwaitingDispatch {
        return Err(IncidentNotAwaitingDispatch);
      }
      // 2. the resources
      var found := FoundIds(resources, resourceIds);
      if |found| != |resourceIds| {
        return Err(ResourcesNotFound);
      }
      // 3. validate and update each resource
      var rejected, updated, newAssignments := EnRouteEach(resources, found, incidentId, now);
      if rejected.Some? {
        return Err(ResourceNotAvailable(resources[rejected.value].name));
      }
      // 4. the incident's status, 5. the commit
      incident := incident.(status := Dispatched);
      assert incident.id == incidentId;
      db.resources := updated;
      db.assignments := db.assignments + newAssignments;
      db.incidents := incidents[incidentId := incident];
      // 6. the broadcast, outside the transaction
      gateway.NotifyIncidentAssigned(incident);
      r := Ok(incident);
    }
  }
}
