/**
  Shared vocabulary of the map-layer model: opaque handles for SDK objects,
  the domain records the dashboard pushes in, and small wrapper types.

  The vendor map SDK is not modelled. Every object it would create (a marker,
  a prism, a mesh line, the point cloud of track heads) is named by a Handle
  drawn from a per-component counter, and a layer is the set of handles
  currently added to it.
 */
module Common {

  /** Identity of an object created through the map SDK. */
  type Handle = nat

  /** A longitude/latitude pair; its numeric content is treated as opaque. */
  datatype LngLat = LngLat(lng: real, lat: real)

  /** A point in the mesh coordinate space returned by the SDK's projection. */
  datatype Coord = Coord(x: real, y: real)

  /** The exception raised by a JavaScript call on `undefined`. */
  datatype JsError = TypeError

  datatype Option<+T> = None | Some(value: T)

  datatype Result<+T> = Ok(value: T) | Err(error: JsError)

  /** The handles a counter hands out while it moves from `lo` to `hi`. */
  function Fresh(lo: nat, hi: nat): (r: set<Handle>)
    ensures forall h :: h in r <==> lo <= h < hi
    decreases hi
  {
    if hi <= lo then {} else Fresh(lo, hi - 1) + {hi - 1}
  }

  /** The handles a counter hands out, in order, while it moves from `lo` to `lo + n`. */
  function Counted(lo: nat, n: nat): (r: seq<Handle>)
    ensures |r| == n
    decreases n
  {
    if n == 0 then [] else [lo] + Counted(lo + 1, n - 1)
  }

  lemma {:induction false} CountedElements(lo: nat, n: nat)
    ensures Elements(Counted(lo, n)) == Fresh(lo, lo + n)
    decreases n
  {
    if n > 0 {
      CountedElements(lo + 1, n - 1);
    }
  }

  /** The j-th handle counted from `lo` is `lo + j`. */
  lemma {:induction false} CountedAt(lo: nat, n: nat, j: nat)
    requires j < n
    ensures Counted(lo, n)[j] == lo + j
    decreases n
  {
    if j > 0 {
      CountedAt(lo + 1, n - 1, j - 1);
    }
  }

  lemma FreshSplit(lo: nat, mid: nat, hi: nat)
    requires lo <= mid <= hi
    ensures Fresh(lo, mid) + Fresh(mid, hi) == Fresh(lo, hi)
  {
  }

  function Max(a: int, b: int): int
  {
    if a < b then b else a
  }

  function Min(a: int, b: int): int
  {
    if a < b then a else b
  }

  /** The handles a sequence holds. */
  function Elements(xs: seq<Handle>): (r: set<Handle>)
    ensures forall x :: x in r <==> x in xs
  {
    set x | x in xs
  }

  /** The last element of a non-empty sequence, `xs[xs.length - 1]` in the source. */
  function Last<T>(xs: seq<T>): T
    requires |xs| > 0
  {
    xs[|xs| - 1]
  }

  // ---------------------------------------------------------------------------
  // Domain records, with the field names class.ts and marker.ts read.
  // ---------------------------------------------------------------------------

  /** A trajectory: positions and the parallel sequence of heights. */
  datatype Track = Track(positions: seq<LngLat>, heights: seq<real>)

  /** A track whose last position and last height exist. */
  predicate HasHead(t: Track)
  {
    |t.positions| > 0 && |t.heights| > 0
  }

  datatype ExtraInfo = ExtraInfo(functional: bool, name: string)

  /** A device as `Devices` in class.ts reads it. */
  datatype Device = Device(id: string, deviceType: string, position: LngLat, extraInfo: ExtraInfo)

  /** A device as `getDeviceMarkerIcon` in utils/marker.ts reads it (flat `functional`). */
  datatype FeedDevice = FeedDevice(id: string, name: string, deviceType: string, position: LngLat, functional: bool)

  /** A polygon path: one or more rings of positions, as the prism primitive takes it. */
  type ZonePath = seq<seq<LngLat>>

  datatype Zone = Zone(id: string, zoneType: string, path: ZonePath, height: real, color: string)
}
