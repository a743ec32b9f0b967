/**
  class.ts `Zones`: one extruded prism per zone on the component's 3-D layer,
  registered under (type, id), updated in place, and shown or hidden per type
  by adding it to or removing it from the layer.
 */
module Zones {
  import opened Common
  import opened TypedIndex

  /** The options of an `AMap.Object3D.Prism` the component sets. */
  datatype PrismObj = PrismObj(path: ZonePath, height: real, color: string)

  datatype ZonesState = ZonesState(
    index: Index,                    // `addedZones`
    prisms: map<Handle, PrismObj>,   // every prism this component created
    layer: set<Handle>,              // members of `threeDLayer`
    next: nat)                       // the next fresh handle

  /** The invariant every reachable state keeps. */
  ghost predicate Wf(s: ZonesState)
  {
    && IndexedIn(s.index, s.prisms)
    && (forall h | h in s.prisms :: h < s.next)
    && s.layer <= s.prisms.Keys
  }

  /** The constructor: an empty registry and an empty layer. */
  function Init(): (s: ZonesState)
    ensures Wf(s)
    ensures s.index == map[] && s.prisms == map[] && s.layer == {}
  {
    ZonesState(map[], map[], {}, 0)
  }

  /** The prism `addZone` builds and `updateZone` sets: the zone's path, height and colour. */
  function PrismOf(zone: Zone): PrismObj
  {
    PrismObj(zone.path, zone.height, zone.color)
  }

  /** What a call added: exactly one fresh prism for `zone`, on the layer, registered under its key. */
  ghost predicate AddedOne(s: ZonesState, r: ZonesState, zone: Zone)
  {
    && s.next !in s.prisms
    && r.prisms.Keys == s.prisms.Keys + {s.next}
    && r.prisms[s.next] == PrismObj(zone.path, zone.height, zone.color)
    && r.layer == s.layer + {s.next}
    && r.next == s.next + 1
    && Find(r.index, zone.zoneType, zone.id) == Some(s.next)
  }

  /** Existing prisms and their layer membership are left alone. */
  ghost predicate KeepsObjects(s: ZonesState, r: ZonesState)
  {
    && (forall h | h in s.prisms :: h in r.prisms && r.prisms[h] == s.prisms[h])
    && s.layer <= r.layer
  }

  /** Create a prism for `zone`, add it to the layer, register it. */
  function CreateAndRegister(s: ZonesState, index: Index, zone: Zone): (r: ZonesState)
    requires Wf(s) && IndexedIn(index, s.prisms) && zone.zoneType in index
    ensures Wf(r) && KeepsObjects(s, r) && AddedOne(s, r, zone)
    ensures r.index.Keys == index.Keys
    ensures forall u, j | u != zone.zoneType || j != zone.id :: Find(r.index, u, j) == Find(index, u, j)
  {
    var h := s.next;
    ZonesState(
      Register(index, zone.zoneType, zone.id, h),
      s.prisms[h := PrismOf(zone)],
      s.layer + {h},
      s.next + 1)
  }

  /**
    `addZone` as written: the same `in`-on-iterator guard as `addDevice`, so an
    ordinary (type, id) always adds a prism and leaves the bucket holding only
    that zone.
   */
  function AddZone(s: ZonesState, zone: Zone): (r: Result<ZonesState>)
    requires Wf(s)
    ensures r.Err? <==> !Ordinary(zone.zoneType) && zone.zoneType !in s.index
    ensures r.Ok? ==> Wf(r.value) && KeepsObjects(s, r.value)
    ensures r.Ok? ==> r.value.index - {zone.zoneType} == s.index - {zone.zoneType}
    ensures r.Ok? && Ordinary(zone.id) ==> AddedOne(s, r.value, zone)
    ensures r.Ok? && !Ordinary(zone.id) ==> r.value.prisms == s.prisms && r.value.layer == s.layer && r.value.next == s.next
    ensures Ordinary(zone.zoneType) && Ordinary(zone.id) ==>
              r.Ok? && r.value.index[zone.zoneType] == map[zone.id := s.next]
    ensures Ordinary(zone.zoneType) && !Ordinary(zone.id) ==>
              r.Ok? && zone.zoneType in r.value.index && r.value.index[zone.zoneType] == map[]
    ensures !Ordinary(zone.zoneType) && zone.zoneType in s.index && Ordinary(zone.id) ==>
              r.Ok? && r.value.index[zone.zoneType] == s.index[zone.zoneType][zone.id := s.next]
  {
    match AdmitAsWritten(s.index, zone.zoneType, zone.id)
    case Threw => Err(TypeError)
    case AlreadyRegistered(index) => Ok(s.(index := index))
    case Create(index) => Ok(CreateAndRegister(s, index, zone))
  }

  /** `addZone` with the guard `Map.has` gives: a registered (type, id) is left alone. */
  function AddZoneIntended(s: ZonesState, zone: Zone): (r: ZonesState)
    requires Wf(s)
    ensures Wf(r) && KeepsObjects(s, r)
    ensures Registered(s.index, zone.zoneType, zone.id) ==> r == s
    ensures !Registered(s.index, zone.zoneType, zone.id) ==> AddedOne(s, r, zone)
    ensures forall u, j | u != zone.zoneType || j != zone.id :: Find(r.index, u, j) == Find(s.index, u, j)
  {
    match AdmitIntended(s.index, zone.zoneType, zone.id)
    case Create(index) => CreateAndRegister(s, index, zone)
    case _ => s
  }

  /** `updateZone`: reset the registered prism's path, height and colour; skip an unknown (type, id). */
  function UpdateZone(s: ZonesState, zone: Zone): (r: ZonesState)
    requires Wf(s)
    ensures Wf(r)
    ensures r.index == s.index && r.layer == s.layer && r.next == s.next
    ensures r.prisms.Keys == s.prisms.Keys
    ensures !Registered(s.index, zone.zoneType, zone.id) ==> r == s
    ensures Registered(s.index, zone.zoneType, zone.id) ==>
              var p := r.prisms[s.index[zone.zoneType][zone.id]];
              p.path == zone.path && p.height == zone.height && p.color == zone.color
    ensures forall h | h in s.prisms && Find(s.index, zone.zoneType, zone.id) != Some(h) ::
              r.prisms[h] == s.prisms[h]
  {
    match Find(s.index, zone.zoneType, zone.id)
    case None => s
    case Some(h) => s.(prisms := s.prisms[h := PrismOf(zone)])
  }

  /**
    `setVisibilityByType`: add every prism of the type's bucket to the layer,
    or remove every one of them; nothing else joins or leaves the layer.
   */
  function SetVisibilityByType(s: ZonesState, t: string, visible: bool): (r: ZonesState)
    requires Wf(s)
    ensures Wf(r)
    ensures r.index == s.index && r.prisms == s.prisms && r.next == s.next
    ensures forall h | h in Bucket(s.index, t) :: h in r.layer <==> visible
    ensures forall h | h !in Bucket(s.index, t) :: h in r.layer <==> h in s.layer
    ensures t !in s.index ==> r == s
  {
    if t in s.index then
      var blocks := Bucket(s.index, t);
      if visible then s.(layer := s.layer + blocks) else s.(layer := s.layer - blocks)
    else s
  }
}
