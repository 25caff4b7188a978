/** The resources service: the table of vehicles and their CRUD operations. */
module Resources {
  import opened Common
  import opened Entities
  import Dispatch

  /** The fields of a new resource; the coordinates are optional. */
  datatype ResourceDraft = ResourceDraft(name: string, kind: ResourceType, latitude: Option<Coord>, longitude: Option<Coord>)

  /** A partial update: every field is optional. */
  datatype ResourcePatch = ResourcePatch(
    name: Option<string>, kind: Option<ResourceType>, latitude: Option<Coord>, longitude: Option<Coord>)

  /** The location `latitude && longitude` lets through: a GeoJSON point, ordered
      (longitude, latitude), when both coordinates are truthy, and none otherwise. */
  function Located(latitude: Option<Coord>, longitude: Option<Coord>): (r: Option<Point>)
    ensures r.Some? <==> Truthy(latitude) && Truthy(longitude)
    ensures r.Some? ==> r.value.longitude == longitude.value && r.value.latitude == latitude.value
  {
    if Truthy(latitude) && Truthy(longitude) then Some(Point(longitude.value, latitude.value)) else None
  }

  /** A zero coordinate is falsy, so a resource at latitude 0 or longitude 0 gets no location. */
  lemma ZeroCoordinateDropsLocation(latitude: Coord, longitude: Coord)
    requires latitude == 0.0 || longitude == 0.0
    ensures Located(Some(latitude), Some(longitude)) == None
  {
  }

  /** `update`: the preload merges name and type; the location is replaced only
      when the patch carries both coordinates, truthy. */
  function MergeResource(stored: Resource, patch: ResourcePatch): (r: Resource)
    ensures r.id == stored.id && r.status == stored.status
  {
    var merged := stored.(
      name := if patch.name.Some? then patch.name.value else stored.name,
      kind := if patch.kind.Some? then patch.kind.value else stored.kind);
    var location := Located(patch.latitude, patch.longitude);
    if location.Some? then merged.(currentLocation := location) else merged
  }

  /** What an update keeps and what it replaces. */
  lemma MergeResourceLaws(stored: Resource, patch: ResourcePatch)
    ensures var r := MergeResource(stored, patch);
      && r.id == stored.id && r.status == stored.status
      && r.name == (if patch.name.Some? then patch.name.value else stored.name)
      && r.kind == (if patch.kind.Some? then patch.kind.value else stored.kind)
      && (Truthy(patch.latitude) && Truthy(patch.longitude) ==>
            r.currentLocation == Some(Point(patch.longitude.value, patch.latitude.value)))
      && (!(Truthy(patch.latitude) && Truthy(patch.longitude)) ==> r.currentLocation == stored.currentLocation)
    ensures MergeResource(MergeResource(stored, patch), patch) == MergeResource(stored, patch)
  {
  }

  /** An update never touches a status, so the dispatch tables stay consistent. */
  lemma UpdateKeepsConsistency(incidents: map<Id, Incident>, resources: map<Id, Resource>, assignments: seq<Assignment>,
                               id: Id, patch: ResourcePatch)
    requires id in resources
    requires Dispatch.Consistent(incidents, resources, assignments)
    ensures Dispatch.Consistent(incidents, resources[id := MergeResource(resources[id], patch)], assignments)
  {
    var after := resources[id := MergeResource(resources[id], patch)];
    forall i | 0 <= i < |assignments|
      ensures Dispatch.Active(incidents, after, assignments[i])
    {
      assert Dispatch.Active(incidents, resources, assignments[i]);
    }
  }

  class ResourcesService {
    const db: Database

    constructor (db: Database)
      ensures this.db == db
    {
      this.db := db;
    }

    /** `create`: a new row, available by the column default, with a location only
        when both coordinates are truthy. */
    method Create(dto: ResourceDraft, newId: Id) returns (resource: Resource)
      requires db.Valid() && newId !in db.resources
      modifies db`resources
      ensures resource == Resource(newId, dto.name, dto.kind, Available, Located(dto.latitude, dto.longitude))
      ensures db.resources == old(db.resources)[newId := resource]
      ensures db.Valid()
    {
      resource := Resource(newId, dto.name, dto.kind, Available, None);
      if Truthy(dto.latitude) && Truthy(dto.longitude) {
        resource := resource.(currentLocation := Some(Point(dto.longitude.value, dto.latitude.value)));
      }
      db.resources := db.resources[newId := resource];
    }

    /** `findOne`: the stored row, or not found. */
    method FindOne(id: Id) returns (r: Result<Resource>)
      ensures id in db.resources <==> r.Ok?
      ensures r.Ok? ==> r.value == db.resources[id]
      ensures r.Err? ==> r.error == ResourceNotFound(id)
    {
      if id !in db.resources {
        return Err(ResourceNotFound(id));
      }
      r := Ok(db.resources[id]);
    }

    /** `update`: an unknown id is not found and changes nothing; a known one is
        replaced by the merge of the patch over it. */
    method Update(id: Id, patch: ResourcePatch) returns (r: Result<Resource>)
      requires db.Valid()
      modifies db`resources
      ensures id !in old(db.resources) ==> r == Err(ResourceNotFound(id)) && db.resources == old(db.resources)
      ensures id in old(db.resources) ==>
        && r == Ok(MergeResource(old(db.resources)[id], patch))
        && db.resources == old(db.resources)[id := r.value]
      ensures db.Valid()
    {
      if id !in db.resources {
        return Err(ResourceNotFound(id));
      }
      var resource := db.resources[id];
      resource := resource.(
        name := if patch.name.Some? then patch.name.value else resource.name,
        kind := if patch.kind.Some? then patch.kind.value else resource.kind);
      if Truthy(patch.latitude) && Truthy(patch.longitude) {
        resource := resource.(currentLocation := Some(Point(patch.longitude.value, patch.latitude.value)));
      }
      db.resources := db.resources[id := resource];
      r := Ok(resource);
    }

    /** `remove`: the delete affects no row exactly when the id is unknown, and
        that is reported as not found. */
    method Remove(id: Id) returns (r: Result<()>)
      requires db.Valid()
      modifies db`resources
      ensures r.Ok? <==> id in old(db.resources)
      ensures r.Err? ==> r.error == ResourceNotFound(id)
      ensures db.resources == old(db.resources) - {id}
      ensures db.Valid()
    {
      var affected := if id in db.resources then 1 else 0;
      db.resources := db.resources - {id};
      if affected == 0 {
        return Err(ResourceNotFound(id));
      }
      r := Ok(());
    }
  }

  /** A created resource is available and referenced by no assignment, so the
      dispatch tables stay consistent and every availability list holds it. */
  lemma CreateKeepsConsistency(incidents: map<Id, Incident>, resources: map<Id, Resource>, assignments: seq<Assignment>,
                               dto: ResourceDraft, newId: Id, rs: seq<Resource>)
    requires newId !in resources
    requires Dispatch.Consistent(incidents, resources, assignments)
    ensures var after := resources[newId := Resource(newId, dto.name, dto.kind, Available, Located(dto.latitude, dto.longitude))];
      && Dispatch.Consistent(incidents, after, assignments)
      && (Dispatch.IsAvailableList(after, rs) ==> after[newId] in rs)
  {
    var after := resources[newId := Resource(newId, dto.name, dto.kind, Available, Located(dto.latitude, dto.longitude))];
    forall i | 0 <= i < |assignments|
      ensures Dispatch.Active(incidents, after, assignments[i])
    {
      assert Dispatch.Active(incidents, resources, assignments[i]);
    }
  }
}
