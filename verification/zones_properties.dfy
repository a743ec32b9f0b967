/**
  Properties of `Zones` over sequences of calls: repeated adds under the
  `in`-on-iterator guard and under the `Map.has` guard, and the laws of
  update and per-type visibility.
 */
module ZonesProperties {
  import opened Common
  import opened TypedIndex
  import opened Zones

  /**
    As written, adding the same ordinary zone twice puts two prisms on the
    layer; the registry keeps only the second, so hiding the type leaves the
    first one drawn and updating the zone leaves it unchanged.
   */
  lemma AddZoneTwiceDuplicates(s: ZonesState, zone: Zone, update: Zone)
    requires Wf(s)
    requires Ordinary(zone.zoneType) && Ordinary(zone.id)
    requires update.zoneType == zone.zoneType && update.id == zone.id
    ensures AddZone(s, zone).Ok? && AddZone(AddZone(s, zone).value, zone).Ok?
    ensures var s2 := AddZone(AddZone(s, zone).value, zone).value;
            && s2.prisms.Keys == s.prisms.Keys + {s.next, s.next + 1}
            && s2.layer == s.layer + {s.next, s.next + 1}
            && s2.index[zone.zoneType] == map[zone.id := s.next + 1]
            && s.next in SetVisibilityByType(s2, zone.zoneType, false).layer
            && UpdateZone(s2, update).prisms[s.next] == PrismOf(zone)
  {
  }

  /** With the `Map.has` guard a repeated add changes nothing. */
  lemma AddZoneIntendedIdempotent(s: ZonesState, zone: Zone)
    requires Wf(s)
    ensures AddZoneIntended(AddZoneIntended(s, zone), zone) == AddZoneIntended(s, zone)
  {
  }

  /** With the `Map.has` guard, hiding a zone's type after adding it twice takes its only prism off the layer. */
  lemma AddZoneIntendedThenHide(s: ZonesState, zone: Zone)
    requires Wf(s)
    ensures var s2 := AddZoneIntended(AddZoneIntended(s, zone), zone);
            && Registered(s2.index, zone.zoneType, zone.id)
            && s2.index[zone.zoneType][zone.id] !in SetVisibilityByType(s2, zone.zoneType, false).layer
  {
  }

  /** Two updates of the same zone: the second overwrites everything the first set. */
  lemma UpdateZoneLastWins(s: ZonesState, a: Zone, b: Zone)
    requires Wf(s)
    requires a.zoneType == b.zoneType && a.id == b.id
    ensures UpdateZone(UpdateZone(s, a), b) == UpdateZone(s, b)
  {
  }

  /** Only the last visibility setting for a type matters. */
  lemma SetVisibilityLastWins(s: ZonesState, t: string, first: bool, second: bool)
    requires Wf(s)
    ensures SetVisibilityByType(SetVisibilityByType(s, t, first), t, second) == SetVisibilityByType(s, t, second)
  {
  }

  /** Hiding a type and showing it again destroys no prism and restores a fully shown type. */
  lemma HideThenShowRestores(s: ZonesState, t: string)
    requires Wf(s)
    requires Bucket(s.index, t) <= s.layer
    ensures SetVisibilityByType(SetVisibilityByType(s, t, false), t, true) == s
  {
  }
}
