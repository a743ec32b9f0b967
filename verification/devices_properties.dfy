/**
  Properties of `Devices` over sequences of calls: what the `in`-on-iterator
  guard does to repeated adds, what the `Map.has` guard would do instead, and
  the laws of update and per-type visibility.
 */
module DevicesProperties {
  import opened Common
  import opened Icons
  import opened TypedIndex
  import opened Devices

  /** Every marker created so far is still registered under its device's (type, id). */
  ghost predicate Tracked(s: DevicesState)
  {
    forall h | h in s.listeners :: Find(s.index, s.listeners[h].deviceType, s.listeners[h].id) == Some(h)
  }

  /** At most one marker per (type, id): the property the add guard is there to keep. */
  ghost predicate OneMarkerPerKey(s: DevicesState)
  {
    forall h1, h2 | h1 in s.listeners && h2 in s.listeners ::
      s.listeners[h1].deviceType == s.listeners[h2].deviceType && s.listeners[h1].id == s.listeners[h2].id ==> h1 == h2
  }

  lemma TrackedGivesOneMarkerPerKey(s: DevicesState)
    requires Tracked(s)
    ensures OneMarkerPerKey(s)
  {
  }

  /**
    As written, adding the same ordinary device twice makes two markers: both
    are on the map and listening, the registry points at the second only, and
    the first can no longer be updated or hidden through the registry.
   */
  lemma AddDeviceTwiceDuplicates(s: DevicesState, device: Device, update: Device)
    requires Wf(s)
    requires Ordinary(device.deviceType) && Ordinary(device.id)
    requires update.deviceType == device.deviceType && update.id == device.id
    ensures AddDevice(s, device).Ok?
    ensures AddDevice(AddDevice(s, device).value, device).Ok?
    ensures var s2 := AddDevice(AddDevice(s, device).value, device).value;
            && s2.markers.Keys == s.markers.Keys + {s.next, s.next + 1}
            && {s.next, s.next + 1} <= s2.onMap
            && s2.listeners[s.next] == device && s2.listeners[s.next + 1] == device
            && s2.index[device.deviceType] == map[device.id := s.next + 1]
            && !OneMarkerPerKey(s2)
            && UpdateDevice(s2, update).markers[s.next] == s2.markers[s.next]
            && SetVisibilityByType(s2, device.deviceType, false).markers[s.next].visible
  {
    var s1 := AddDevice(s, device).value;
    var s2 := AddDevice(s1, device).value;
    assert s1.next == s.next + 1;
    assert s.next in s2.listeners && s.next + 1 in s2.listeners;
    assert s.next !in Bucket(s2.index, device.deviceType);
  }

  /**
    As written, adding a second ordinary device of the same type drops the
    first from the registry, after which `updateDevice` for the first is a no-op.
   */
  lemma AddDeviceForgetsSiblings(s: DevicesState, first: Device, second: Device)
    requires Wf(s)
    requires Ordinary(first.deviceType) && Ordinary(first.id) && Ordinary(second.id)
    requires second.deviceType == first.deviceType && second.id != first.id
    ensures AddDevice(s, first).Ok? && AddDevice(AddDevice(s, first).value, second).Ok?
    ensures var s2 := AddDevice(AddDevice(s, first).value, second).value;
            && !Registered(s2.index, first.deviceType, first.id)
            && s.next in s2.onMap
            && UpdateDevice(s2, first) == s2
  {
  }

  /** With the `Map.has` guard every marker stays registered under its own key. */
  lemma AddDeviceIntendedKeepsTracked(s: DevicesState, device: Device)
    requires Wf(s) && Tracked(s)
    ensures Tracked(AddDeviceIntended(s, device))
    ensures OneMarkerPerKey(AddDeviceIntended(s, device))
  {
  }

  /** With the `Map.has` guard a repeated add changes nothing. */
  lemma AddDeviceIntendedIdempotent(s: DevicesState, device: Device)
    requires Wf(s)
    ensures AddDeviceIntended(AddDeviceIntended(s, device), device) == AddDeviceIntended(s, device)
  {
  }

  /** Two updates of the same device: the second overwrites everything the first set. */
  lemma UpdateDeviceLastWins(s: DevicesState, a: Device, b: Device)
    requires Wf(s)
    requires a.deviceType == b.deviceType && a.id == b.id
    ensures UpdateDevice(UpdateDevice(s, a), b) == UpdateDevice(s, b)
  {
  }

  /** Only the last visibility setting for a type matters. */
  lemma SetVisibilityLastWins(s: DevicesState, t: string, first: bool, second: bool)
    requires Wf(s)
    ensures SetVisibilityByType(SetVisibilityByType(s, t, first), t, second) == SetVisibilityByType(s, t, second)
  {
  }

  /** Hiding a type and showing it again loses no marker and restores a fully shown type. */
  lemma HideThenShowRestores(s: DevicesState, t: string)
    requires Wf(s)
    requires forall h | h in s.markers && h in Bucket(s.index, t) :: s.markers[h].visible
    ensures SetVisibilityByType(SetVisibilityByType(s, t, false), t, true) == s
  {
  }

  /**
    A working horn is added with the "up" icon; a later update reporting it
    broken swaps the icon on the same marker, and the horn bucket still holds
    one device.
   */
  lemma HornScenario(position: LngLat, moved: LngLat)
    ensures var horn := Device("h1", "horn", position, ExtraInfo(true, "horn1"));
            var s1 := AddDevice(Init(), horn);
            && s1.Ok?
            && s1.value.markers[0].icon == HornUp
            && var broken := Device("h1", "horn", moved, ExtraInfo(false, "horn2"));
               var s2 := UpdateDevice(s1.value, broken);
               && s2.index == s1.value.index
               && s2.index["horn"] == map["h1" := 0]
               && s2.markers.Keys == {0}
               && s2.markers[0] == MarkerObj(moved, HornDown, "horn2", true)
  {
  }
}
