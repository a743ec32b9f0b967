# Map-layer reconcilers of the monitor dashboard

This project models the bookkeeping in `src/class.ts` and `src/utils/marker.ts`.
That code keeps the objects drawn on an AMap map in step with the data the dashboard receives:

- `TrackLines.showTracks` redraws one head point per track. It then reconciles an array of mesh lines with the tracks by index.
- `Devices` keeps one marker per device, registered under (type, id). It can add, update and show or hide markers per type.
- `Zones` does the same with extruded prisms on a 3-D layer.
- The icon tables (`Devices.getDeviceIcon` and `getDeviceMarkerIcon`) map a device type and working state to an image asset.

The map SDK is abstracted away:

- Every object it creates is a `Handle` taken from a per-component counter.
- Each object's settable fields are a record held in a map from handles.
- A layer, or the map itself, is the set of handles added to it.
- `lngLatToGeodeticCoord` is the function parameter `project`.

Each method is a pure state transformer. Its contract requires a well-formedness invariant (`Wf`), which `Init` establishes and every operation preserves.

The registry guards `x in m.keys()` (class.ts lines 96, 99, 152 and 155) are modelled with JavaScript semantics. `in` asks whether the Map Iterator object has a property of that name. That is true only for names such as `next` or `constructor`, and never because the map holds the key. `TypedIndex.InKeysIterator` is this test. The model therefore shows:

- the type's bucket is replaced by an empty one on every add;
- the "already added" return never fires for an ordinary id;
- a type named like an iterator property that has no bucket makes `.keys()` run on `undefined`, which throws a `TypeError`.

Two consequences of the code as written shape the model:

- Surplus track lines leave the layer but stay in `this.lines`, so a later call with more tracks reuses them in place.
- A repeated add of an ordinary (type, id) creates a second marker or prism instead of returning early, because of the `in`-on-iterator guard.

Files:

- `common.dfy`: handles, fresh-handle sets, and the domain records `Device`, `Zone` and `Track`.
- `icons.dfy`: the shared icon table.
- `marker.dfy`: `getDeviceMarkerIcon`.
- `typed_index.dfy`: the two-level registry and both add guards.
- `devices.dfy` and `devices_properties.dfy`: `Devices` and its call-sequence properties.
- `zones.dfy` and `zones_properties.dfy`: `Zones` and its call-sequence properties.
- `track_lines.dfy` and `track_lines_properties.dfy`: `showTracks`, its properties, and the truncating variant.

## Model

| member | source | states |
|---|---|---|
| Icons.IconForMeaning | src/class.ts:82-93 | For horn, camera and radar, the chosen asset depicts exactly the given type and working state. Any other type gets the fallback asset. |
| Icons.IconMeaningInverse | src/utils/marker.ts:12-23 | Every non-fallback asset is what the table picks for the type and state it depicts, so the table is a bijection onto those assets. |
| Marker.GetDeviceMarkerIcon | src/utils/marker.ts:12-23 | horn, camera and radar map to their Up asset when `functional` is set and to Down otherwise. Every other type maps to `unknown.png`. The asset's reading agrees with the device's type and state. |
| Marker.MarkerIconDependsOnlyOnTypeAndState | src/utils/marker.ts:12-23 | Two devices with the same type and working state get the same icon, whatever their id, name or position. |
| Marker.MarkerIconFallbackIff | src/utils/marker.ts:20-21 | The `unknown` asset is returned exactly when the type is outside the table. |
| TypedIndex.GuardMissesRegisteredPair | src/class.ts:96-100 | For an ordinary type and id that ARE registered, the guard as written (`InKeysIterator`) still goes on to create a new object, while `Map.has` takes the early return. The as-written guard also empties the bucket that held the pair. |
| TypedIndex.Bucket | src/class.ts:132-134 | The handles iterated for a type are exactly those registered under some id of that type. An unknown type yields none. |
| TypedIndex.AdmitAsWritten | src/class.ts:95-101 | The guard throws exactly for a non-ordinary type with no bucket. An ordinary type always gets a fresh empty bucket. Other types are untouched. The early return fires exactly for a non-ordinary id. |
| TypedIndex.AdmitIntended | src/class.ts:95-101 | With `Map.has`, the early return fires exactly for a registered pair. Otherwise the type has a bucket without the id, and every other registration is kept. |
| TypedIndex.Register | src/class.ts:116 | After `set(id, h)` the pair finds `h`. Every other pair finds what it found before, and the set of types is unchanged. |
| Devices.Init | src/class.ts:73-80 | The constructor starts with an empty, well-formed registry. |
| Devices.GetDeviceIcon | src/class.ts:82-93 | The class's icon table is total: Up or Down by `functional` for the three known types, `unknown/up.png` otherwise. The asset depicts the device's type and state. |
| Devices.CreateAndRegister | src/class.ts:102-116 | Exactly one fresh marker is added, at the device's position, with its icon and name, visible. It is put on the map, gets a listener forwarding this device, and is registered under (type, id). Nothing existing changes. |
| Devices.AddDevice | src/class.ts:95-117 | Err exactly when the type is an iterator name without a bucket. Otherwise the invariant is kept and other types' buckets are unchanged. An ordinary id always adds one marker. For an ordinary type the bucket becomes exactly `{id: new handle}`. A non-ordinary id adds nothing; with an ordinary type its bucket is still reset to empty. |
| Devices.AddDeviceIntended | src/class.ts:95-117 | With the `Map.has` guard, a registered pair leaves the state unchanged. Otherwise exactly one marker is added and registered, and every other registration is kept. |
| Devices.UpdateDevice | src/class.ts:119-129 | A registered device's marker gets the new position, the icon from `getDeviceIcon` and the new label, and keeps its visibility. No other marker, no registration and no map membership changes. An unregistered pair is a no-op. |
| Devices.SetVisibilityByType | src/class.ts:131-138 | Every marker in the type's bucket gets `visible = v` and nothing else changes. Markers outside the bucket are untouched. An unknown type is a no-op. |
| DevicesProperties.TrackedGivesOneMarkerPerKey | src/class.ts:95-101 | If every marker is still registered under its own device's key, there is at most one marker per (type, id). |
| DevicesProperties.AddDeviceTwiceDuplicates | src/class.ts:95-117 | Adding the same ordinary device twice makes two markers on the map, both listening, while the registry holds only the second. Updating or hiding the type no longer reaches the first. |
| DevicesProperties.AddDeviceForgetsSiblings | src/class.ts:96-98 | Adding a second device of the same ordinary type drops the first from the registry. The first's marker stays on the map and `updateDevice` for it becomes a no-op. |
| DevicesProperties.AddDeviceIntendedKeepsTracked | src/class.ts:95-117 | With the `Map.has` guard, every marker stays registered under its own key, so there is one marker per (type, id). |
| DevicesProperties.AddDeviceIntendedIdempotent | src/class.ts:99-101 | With the `Map.has` guard, a repeated add changes nothing. |
| DevicesProperties.UpdateDeviceLastWins | src/class.ts:119-129 | Two updates of one device leave the state the second alone would. |
| DevicesProperties.SetVisibilityLastWins | src/class.ts:131-138 | Only the last visibility setting for a type matters, so the operation is idempotent. |
| DevicesProperties.HideThenShowRestores | src/class.ts:131-138 | Hiding a fully shown type and showing it again restores the exact state. |
| DevicesProperties.HornScenario | src/class.ts:82-129 | A working horn is added with `hornUp`. An update reporting it broken moves it, relabels it and switches the same marker to `hornDown`, with the bucket still holding that one horn. |
| Zones.Init | src/class.ts:145-149 | The constructor starts with an empty registry and an empty layer. |
| Zones.CreateAndRegister | src/class.ts:158-164 | Exactly one fresh prism with the zone's path, height and colour is added to the layer and registered under (type, id). Nothing existing changes. |
| Zones.AddZone | src/class.ts:151-165 | The same guard outcome as `addDevice`: Err for an iterator-named type without a bucket. Otherwise an ordinary id always adds one prism to the layer, and an ordinary type's bucket becomes exactly `{id: new handle}`. A non-ordinary id adds nothing; with an ordinary type its bucket is still reset to empty. Other types are unchanged. |
| Zones.AddZoneIntended | src/class.ts:151-165 | With the `Map.has` guard, a registered pair is a no-op. Otherwise exactly one prism is added, and every other registration is kept. |
| Zones.UpdateZone | src/class.ts:167-176 | A registered zone's prism gets the new path, height and colour. Every other prism, the registry and the layer are unchanged. An unregistered pair is a no-op. |
| Zones.SetVisibilityByType | src/class.ts:178-189 | Each prism in the type's bucket is on the layer exactly when `v` holds. Every other handle keeps its layer membership. An unknown type is a no-op. |
| ZonesProperties.AddZoneTwiceDuplicates | src/class.ts:151-165 | Adding the same ordinary zone twice puts two prisms on the layer. Hiding the type leaves the first drawn, and updating the zone does not reach it. |
| ZonesProperties.AddZoneIntendedIdempotent | src/class.ts:155-157 | With the `Map.has` guard, a repeated add changes nothing. |
| ZonesProperties.AddZoneIntendedThenHide | src/class.ts:178-189 | With the `Map.has` guard, hiding a zone's type after adding it twice takes its only prism off the layer. |
| ZonesProperties.UpdateZoneLastWins | src/class.ts:167-176 | Two updates of one zone leave the state the second alone would. |
| ZonesProperties.SetVisibilityLastWins | src/class.ts:178-189 | Only the last visibility setting for a type matters. |
| ZonesProperties.HideThenShowRestores | src/class.ts:178-189 | Removing a fully shown type from the layer and adding it back restores the exact state. |
| TrackLines.Init | src/class.ts:18-28 | The point cloud is on the layer with one colour entry, one size and no point. There are no lines yet. |
| TrackLines.FillHeads | src/class.ts:31-41 | The rebuilt buffers hold 3 coordinates, 4 colour components and 1 size per track, every size being 6. |
| TrackLines.FillHeadsPoint | src/class.ts:35-40 | Point k of the rebuilt buffers is the projected last position of track k with its negated last height, in colour (1, 0, 0, 0.6). |
| TrackLines.RemoveTrailing | src/class.ts:45-47 | The removal loop takes exactly the lines at indices n..i-1 off the layer. |
| TrackLines.SyncOne | src/class.ts:48-63 | Line i exists: it gets track i's path and heights, and nothing else changes. Otherwise one fresh line with that path is created, added to the layer and pushed. Other meshes are untouched. |
| TrackLines.SyncFrom | src/class.ts:48-63 | The `forEach` keeps the invariant, leaves the heads alone, and ends with max(old count, track count) lines, one fresh handle per appended line. |
| TrackLines.SyncFromLines | src/class.ts:48-63 | The lines array becomes the old array followed by the fresh handles in creation order. |
| TrackLines.SyncFromLayer | src/class.ts:59-60 | The layer gains exactly the fresh handles. |
| TrackLines.SyncFromMeshKeys | src/class.ts:53-61 | Meshes are created exactly under the fresh handles. |
| TrackLines.SyncFromKeepsOthers | src/class.ts:48-52 | No mesh outside the lines at the visited indices is changed. |
| TrackLines.SyncFromWritesTrack | src/class.ts:48-63 | The line at any visited index k ends up carrying track k's path and heights. |
| TrackLines.SyncFromWritesTracks | src/class.ts:48-63 | Every line at a visited index k carries track k's path and heights. |
| TrackLines.ReconcileLines | src/class.ts:45-63 | The line half keeps the invariant and the heads, ends with max(old count, track count) lines, and keeps every old line at its index. |
| TrackLines.ReconcileLinesLayer | src/class.ts:45-61 | The layer loses exactly the old lines from index \|ts\| on and gains exactly the fresh lines. |
| TrackLines.ReconcileLinesFresh | src/class.ts:53-61 | max(0, \|ts\| - old count) lines are created, and the appended lines are exactly those fresh handles. |
| TrackLines.ReconcileLinesMeshes | src/class.ts:48-63 | Line k carries track k for every k < \|ts\|, and every other mesh is unchanged. |
| TrackLines.ShowTracks | src/class.ts:30-64 | `showTracks` keeps the invariant and the point cloud's identity, ends with max(old count, track count) lines, and keeps every old line at its index. |
| TrackLines.ShowTracksHeads | src/class.ts:31-43 | After the call the point cloud is flagged for update and holds exactly one point per track, at that track's projected head, in the head colour and size. |
| TrackLines.ShowTracksLines | src/class.ts:45-63 | Exactly the missing lines are created fresh. Line k shows track k, and every other mesh is untouched. |
| TrackLines.ShowTracksLayer | src/class.ts:45-61 | The layer delta is exact. Lines from index \|ts\| on leave it, the fresh lines (none of them on it before) join it, and the point cloud stays. |
| TrackLines.ShowTracksMeshKeys | src/class.ts:53-61 | A call creates meshes only under fresh handles and forgets none. |
| TrackLinesProperties.InitShowsLines | src/class.ts:18-28 | The initial state is well-formed and every line in it is shown. |
| TrackLinesProperties.ShrinkThenGrowHidesLines | src/class.ts:45-62 | After a call with fewer tracks than lines and then one with more, the lines at the indices in between are reused in place and carry the new tracks, but they are not on the layer. |
| TrackLinesProperties.ShrinkToNothingExample | src/class.ts:45-62 | Two tracks, then none, then two again: both lines carry the tracks and neither is shown, although every line was shown after the first call. |
| TrackLinesProperties.DropSurplus | src/class.ts:45-47 | The removal loop followed by truncation keeps the invariant. It takes the surplus lines off the layer and out of the array. |
| TrackLinesProperties.ReconcileLinesTruncating | src/class.ts:45-63 | With the truncation there are exactly \|ts\| lines, and the old lines below \|ts\| keep their indices. |
| TrackLinesProperties.ShowTracksTruncating | src/class.ts:30-64 | `showTracks` with the truncation keeps the invariant and ends with exactly one line per track. |
| TrackLinesProperties.ReconcileLinesTruncatingLayer | src/class.ts:45-61 | The truncating variant has the same exact layer delta as the code. |
| TrackLinesProperties.ReconcileLinesTruncatingFresh | src/class.ts:53-61 | Every line it appends past the old count is a fresh handle. |
| TrackLinesProperties.ReconcileLinesTruncatingTracks | src/class.ts:48-63 | Line k of the truncating variant carries track k. |
| TrackLinesProperties.ReconcileLinesTruncatingShows | src/class.ts:45-62 | The truncating reconciliation keeps every line in the array on the layer. |
| TrackLinesProperties.ShowTracksTruncatingShowsLines | src/class.ts:30-64 | With the truncation, every line in the array is shown after each call, and line k shows track k. |

## Left out

- Rendering is not modelled: `reDraw`, `needUpdate` beyond the flag itself, marker `show`/`hide` beyond the `visible` field, and all drawing by the SDK.
- Cosmetic constants are not modelled: the line width and colour, and the label direction and offset. They have no effect on the bookkeeping.
- Click dispatch is not modelled. The model records only that each created marker gets one listener, which forwards the device it was created for. The listener firing is not modelled.
- `lngLatToGeodeticCoord` is a parameter `project`. Its numeric behaviour belongs to the SDK.
- Positions, heights and colours are opaque values. No floating-point arithmetic is modelled beyond negating the head height.
- The `ids` parameter of `showTracks` is unused by the code and is not modelled.
- The 3-D layer that `Devices` creates and adds to the map is never used again and is not modelled.
- The constructors' `map.add(threeDLayer)` calls are not modelled: the layers are part of the map from the start.
- TrackLines.ShowTracks: requires every track to have at least one position and one height. The code reads the last element unguarded, and what the SDK projection does with `undefined` is not known here.
- The layer is a set, so adding a member twice is not modelled. In the SDK, `Zones.setVisibilityByType(t, true)` on an already shown prism may add it again.
- TypedIndex.IteratorMembers: the set of property names reachable from a Map Iterator follows ECMAScript 2025 with the iterator helpers. Older engines have fewer names, which changes only which exotic ids or types count as "already added".
- src/utils/interpolation.ts is not part of this model. It delegates curve smoothing to an external library.
- src/interface.ts is not part of this model. It holds type declarations only, and the record fields here follow what class.ts and marker.ts read.
- Ids and types are modelled as strings only. A caller may pass a number (the mock feed sends `id: 1`, mock_request.py:46), and a JavaScript `Map` keeps `1` and `"1"` apart; the model does not distinguish them from strings.
- mock_request.py and test.py are not part of this model. They are websocket mock servers with random data.

## Findings

| source | as written | input that shows it | evidently intended | confidence | as-written member | corrected member |
|---|---|---|---|---|---|---|
| src/class.ts:45-62 | The surplus-line loop removes lines from the layer but never shortens `this.lines`. A later call with more tracks reuses those lines via `setPath`/`setHeight` without adding them back to the layer. | `showTracks([t1, t2])`, then `showTracks([])`, then `showTracks([t1, t2])`: both lines carry the tracks and neither is drawn. | Truncate `this.lines` to the track count after the removal loop, so that every line in the array is on the layer. | not executed | TrackLinesProperties.ShrinkToNothingExample | TrackLinesProperties.ShowTracksTruncatingShowsLines |
| src/class.ts:96-101 | `device.type in this.addedDevices.keys()` tests a property of the iterator object, not a key of the map. Every add therefore replaces the type's bucket, and the "already added" return never fires. The same holds for `addZone` (src/class.ts:152-157). | `addDevice(d)` twice for `d = {type: "horn", id: "h1", …}`: two markers are on the map, and the registry holds only the second. | `Map.has`: create the bucket only when absent, and skip a registered (type, id). | not executed | DevicesProperties.AddDeviceTwiceDuplicates | DevicesProperties.AddDeviceIntendedKeepsTracked |
