/**
  class.ts `Devices`: one map marker per device, registered under
  (type, id), with in-place updates and per-type show/hide.

  The state is the component's own bookkeeping plus the part of the SDK it
  touches: the markers it created (with their settable fields), which of
  them were added to the map, and the click listener installed on each.
 */
module Devices {
  import opened Common
  import opened Icons
  import opened TypedIndex

  /** The settable state of an `AMap.Marker`. */
  datatype MarkerObj = MarkerObj(position: LngLat, icon: Icon, labelContent: string, visible: bool)

  datatype DevicesState = DevicesState(
    index: Index,                      // `addedDevices`
    markers: map<Handle, MarkerObj>,   // every marker this component created
    onMap: set<Handle>,                // markers added to the map
    listeners: map<Handle, Device>,    // the click listener of each marker and the device it forwards
    next: nat)                         // the next fresh handle

  /** The invariant every reachable state keeps. */
  ghost predicate Wf(s: DevicesState)
  {
    && IndexedIn(s.index, s.markers)
    && (forall h | h in s.markers :: h < s.next)
    && s.onMap == s.markers.Keys
    && s.listeners.Keys == s.markers.Keys
  }

  /** The constructor: an empty registry. */
  function Init(): (s: DevicesState)
    ensures Wf(s)
    ensures s.index == map[] && s.markers == map[]
  {
    DevicesState(map[], map[], {}, map[], 0)
  }

  /** `getDeviceIcon`: the class's icon table, falling back to `unknown/up.png`. */
  function GetDeviceIcon(device: Device): (icon: Icon)
    ensures device.deviceType == "horn" ==> icon == (if device.extraInfo.functional then HornUp else HornDown)
    ensures device.deviceType == "camera" ==> icon == (if device.extraInfo.functional then CameraUp else CameraDown)
    ensures device.deviceType == "radar" ==> icon == (if device.extraInfo.functional then RadarUp else RadarDown)
    ensures !KnownType(device.deviceType) ==> icon == UnknownUp
    ensures KnownType(device.deviceType) ==> IconMeaning(icon) == Some((device.deviceType, device.extraInfo.functional))
  {
    IconFor(device.deviceType, device.extraInfo.functional, UnknownUp)
  }

  /** The marker `addDevice` builds: at the device, with its icon and name, shown. */
  function NewMarker(device: Device): MarkerObj
  {
    MarkerObj(device.position, GetDeviceIcon(device), device.extraInfo.name, true)
  }

  /** Create a marker for `device`, put it on the map, listen to its clicks, register it. */
  function CreateAndRegister(s: DevicesState, index: Index, device: Device): (r: DevicesState)
    requires Wf(s) && IndexedIn(index, s.markers) && device.deviceType in index
    ensures Wf(r) && KeepsObjects(s, r) && AddedOne(s, r, device)
    ensures r.index.Keys == index.Keys
    ensures forall u, j | u != device.deviceType || j != device.id :: Find(r.index, u, j) == Find(index, u, j)
  {
    var h := s.next;
    DevicesState(
      Register(index, device.deviceType, device.id, h),
      s.markers[h := NewMarker(device)],
      s.onMap + {h},
      s.listeners[h := device],
      s.next + 1)
  }

  /** What a call added: exactly the one fresh marker for `device`, registered under its key. */
  ghost predicate AddedOne(s: DevicesState, r: DevicesState, device: Device)
  {
    && s.next !in s.markers
    && r.markers.Keys == s.markers.Keys + {s.next}
    && r.markers[s.next] == MarkerObj(device.position, GetDeviceIcon(device), device.extraInfo.name, true)
    && r.onMap == s.onMap + {s.next}
    && r.listeners == s.listeners[s.next := device]
    && r.next == s.next + 1
    && Find(r.index, device.deviceType, device.id) == Some(s.next)
  }

  /** Existing markers, their map membership and their listeners are left alone. */
  ghost predicate KeepsObjects(s: DevicesState, r: DevicesState)
  {
    && (forall h | h in s.markers :: h in r.markers && r.markers[h] == s.markers[h])
    && s.onMap <= r.onMap
    && (forall h | h in s.listeners :: h in r.listeners && r.listeners[h] == s.listeners[h])
  }

  /**
    `addDevice` as written. For an ordinary type the bucket is replaced by a
    fresh empty one on every call, and for an ordinary id the "already added"
    return never fires, so every call adds a marker and the bucket ends up
    holding only this device. A type named like an iterator property that has
    no bucket makes `.keys()` run on `undefined`.
   */
  function AddDevice(s: DevicesState, device: Device): (r: Result<DevicesState>)
    requires Wf(s)
    ensures r.Err? <==> !Ordinary(device.deviceType) && device.deviceType !in s.index
    ensures r.Ok? ==> Wf(r.value) && KeepsObjects(s, r.value)
    ensures r.Ok? ==> r.value.index - {device.deviceType} == s.index - {device.deviceType}
    ensures r.Ok? && Ordinary(device.id) ==> AddedOne(s, r.value, device)
    ensures r.Ok? && !Ordinary(device.id) ==> r.value.markers == s.markers && r.value.next == s.next
    ensures Ordinary(device.deviceType) && Ordinary(device.id) ==>
              r.Ok? && r.value.index[device.deviceType] == map[device.id := s.next]
    ensures Ordinary(device.deviceType) && !Ordinary(device.id) ==>
              r.Ok? && device.deviceType in r.value.index && r.value.index[device.deviceType] == map[]
    ensures !Ordinary(device.deviceType) && device.deviceType in s.index && Ordinary(device.id) ==>
              r.Ok? && r.value.index[device.deviceType] == s.index[device.deviceType][device.id := s.next]
  {
    match AdmitAsWritten(s.index, device.deviceType, device.id)
    case Threw => Err(TypeError)
    case AlreadyRegistered(index) => Ok(s.(index := index))
    case Create(index) => Ok(CreateAndRegister(s, index, device))
  }

  /** `addDevice` with the guard `Map.has` gives: a registered (type, id) is left alone. */
  function AddDeviceIntended(s: DevicesState, device: Device): (r: DevicesState)
    requires Wf(s)
    ensures Wf(r) && KeepsObjects(s, r)
    ensures Registered(s.index, device.deviceType, device.id) ==> r == s
    ensures !Registered(s.index, device.deviceType, device.id) ==> AddedOne(s, r, device)
    ensures forall u, j | u != device.deviceType || j != device.id :: Find(r.index, u, j) == Find(s.index, u, j)
  {
    match AdmitIntended(s.index, device.deviceType, device.id)
    case Create(index) => CreateAndRegister(s, index, device)
    case _ => s
  }

  /**
    `updateDevice`: move the registered marker, recompute its icon, relabel
    it; a (type, id) with no entry is silently skipped.
   */
  function UpdateDevice(s: DevicesState, device: Device): (r: DevicesState)
    requires Wf(s)
    ensures Wf(r)
    ensures r.index == s.index && r.onMap == s.onMap && r.listeners == s.listeners && r.next == s.next
    ensures r.markers.Keys == s.markers.Keys
    ensures !Registered(s.index, device.deviceType, device.id) ==> r == s
    ensures Registered(s.index, device.deviceType, device.id) ==>
              var h := s.index[device.deviceType][device.id];
              && r.markers[h].position == device.position
              && r.markers[h].icon == GetDeviceIcon(device)
              && r.markers[h].labelContent == device.extraInfo.name
              && r.markers[h].visible == s.markers[h].visible
    ensures forall h | h in s.markers && Find(s.index, device.deviceType, device.id) != Some(h) ::
              r.markers[h] == s.markers[h]
  {
    match Find(s.index, device.deviceType, device.id)
    case None => s
    case Some(h) =>
      var m := s.markers[h];
      s.(markers := s.markers[h := m.(position := device.position, icon := GetDeviceIcon(device), labelContent := device.extraInfo.name)])
  }

  /** `setVisibilityByType`: show or hide every marker in the type's bucket. */
  function SetVisibilityByType(s: DevicesState, t: string, visible: bool): (r: DevicesState)
    requires Wf(s)
    ensures Wf(r)
    ensures r.index == s.index && r.onMap == s.onMap && r.listeners == s.listeners && r.next == s.next
    ensures r.markers.Keys == s.markers.Keys
    ensures forall h | h in s.markers && h in Bucket(s.index, t) :: r.markers[h] == s.markers[h].(visible := visible)
    ensures forall h | h in s.markers && h !in Bucket(s.index, t) :: r.markers[h] == s.markers[h]
    ensures t !in s.index ==> r == s
  {
    if t in s.index then
      var bucket := Bucket(s.index, t);
      s.(markers := map h | h in s.markers :: if h in bucket then s.markers[h].(visible := visible) else s.markers[h])
    else s
  }
}
