/**
  class.ts `TrackLines`: each call of `showTracks` redraws one head point per
  track and reconciles a list of mesh lines with the tracks by position: line
  i shows track i, surplus lines leave the 3-D layer, missing ones are created.

  The state holds the point cloud's buffers, the `lines` array, the settable
  part of every mesh line created, and the members of the component's layer.
  The SDK's `lngLatToGeodeticCoord` is the parameter `project`.
 */
module TrackLines {
  import opened Common

  /** The flat buffers of the `RoundPoints` object that marks each track's head. */
  datatype Heads = Heads(vertices: seq<real>, vertexColors: seq<real>, pointSizes: seq<real>, needUpdate: bool)

  /** The settable part of an `AMap.Object3D.MeshLine`. */
  datatype MeshLine = MeshLine(path: seq<LngLat>, heights: seq<real>)

  datatype TrackState = TrackState(
    headsHandle: Handle,            // the `RoundPoints` object
    heads: Heads,
    lines: seq<Handle>,             // `this.lines`
    meshes: map<Handle, MeshLine>,  // every mesh line this component created
    layer: set<Handle>,             // members of `threeDLayer`
    next: nat)                      // the next fresh handle

  /** RGBA of every head point, and its size. */
  const HeadColor: seq<real> := [1.0, 0.0, 0.0, 0.6]
  const HeadSize: real := 6.0

  /** The invariant every reachable state keeps. */
  ghost predicate Wf(s: TrackState)
  {
    && s.headsHandle < s.next
    && LinesHaveMeshes(s)
    && (forall i, j | 0 <= i < j < |s.lines| :: s.lines[i] != s.lines[j])
    && (forall h | h in s.meshes :: h < s.next && h != s.headsHandle)
    && (forall h | h in s.layer :: h == s.headsHandle || h in s.meshes)
  }

  /** Every line in the array is a mesh line this component created. */
  ghost predicate LinesHaveMeshes(s: TrackState)
  {
    forall i | 0 <= i < |s.lines| :: s.lines[i] in s.meshes
  }

  /** The constructor: the point cloud on the layer, with one colour and one size and no point yet. */
  function Init(): (s: TrackState)
    ensures Wf(s)
    ensures s.lines == [] && s.layer == {s.headsHandle}
    ensures s.heads.vertices == [] && s.heads.vertexColors == HeadColor && s.heads.pointSizes == [HeadSize]
  {
    TrackState(0, Heads([], HeadColor, [HeadSize], false), [], map[], {0}, 1)
  }

  /** The mesh line a track is drawn with. */
  function MeshOf(t: Track): MeshLine
  {
    MeshLine(t.positions, t.heights)
  }

  /** The head of a track in mesh coordinates: projected last position, height pointing up (negative z). */
  function HeadPoint(t: Track, project: LngLat -> Coord): seq<real>
    requires HasHead(t)
  {
    var c := project(Last(t.positions));
    [c.x, c.y, -Last(t.heights)]
  }

  /**
    The point buffers after the `forEach` that pushes one point per track into
    emptied buffers: three coordinates, four colour components and one size
    per track, in track order.
   */
  function FillHeads(ts: seq<Track>, project: LngLat -> Coord): (r: Heads)
    requires forall k | 0 <= k < |ts| :: HasHead(ts[k])
    ensures |r.vertices| == 3 * |ts| && |r.vertexColors| == 4 * |ts| && |r.pointSizes| == |ts|
    ensures forall j | 0 <= j < |r.pointSizes| :: r.pointSizes[j] == HeadSize
    decreases |ts|
  {
    if ts == [] then Heads([], [], [], false)
    else
      var init := ts[..|ts| - 1];
      var prev := FillHeads(init, project);
      Heads(prev.vertices + HeadPoint(Last(ts), project),
            prev.vertexColors + HeadColor,
            prev.pointSizes + [HeadSize],
            false)
  }
  /** The lines at indices n.. of `lines`: those a call with n tracks drops from the layer. */
  function Surplus(lines: seq<Handle>, n: nat): (r: set<Handle>)
  {
    if n < |lines| then Elements(lines[n..]) else {}
  }

  /**
    `for (i = lines.length; i > n; i--) layer.remove(lines[i - 1])`, from
    index i down. Only the layer changes: `lines` keeps every handle.
   */
  function RemoveTrailing(layer: set<Handle>, lines: seq<Handle>, i: nat, n: nat): (r: set<Handle>)
    requires i <= |lines|
    ensures r == if n < i then layer - Elements(lines[n..i]) else layer
    decreases i
  {
    if i > n then
      assert lines[n..i] == lines[n..i - 1] + [lines[i - 1]];
      RemoveTrailing(layer - {lines[i - 1]}, lines, i - 1, n)
    else layer
  }

  /**
    One iteration of the `forEach` over the tracks, at index i: a line that
    exists at the index gets the track's path and heights; otherwise a new
    line is created, added to the layer and pushed.
   */
  function SyncOne(s: TrackState, t: Track, i: nat): (r: TrackState)
    requires i <= |s.lines|
    ensures Wf(s) ==> Wf(r)
    ensures r.headsHandle == s.headsHandle && r.heads == s.heads
    ensures i < |s.lines| ==> r.lines == s.lines && r.next == s.next && r.layer == s.layer
    ensures i == |s.lines| ==> r.lines == s.lines + [s.next] && r.next == s.next + 1 && r.layer == s.layer + {s.next}
    ensures r.lines[i] in r.meshes && r.meshes[r.lines[i]] == MeshOf(t)
    ensures forall h | h in s.meshes && h != r.lines[i] :: h in r.meshes && r.meshes[h] == s.meshes[h]
    ensures LinesHaveMeshes(s) ==> LinesHaveMeshes(r) && r.meshes.Keys == s.meshes.Keys + Fresh(s.next, r.next)
  {
    if i < |s.lines| then
      s.(meshes := s.meshes[s.lines[i] := MeshOf(t)])
    else
      var h := s.next;
      s.(meshes := s.meshes[h := MeshOf(t)], layer := s.layer + {h}, lines := s.lines + [h], next := s.next + 1)
  }

  /** The `forEach` over the tracks from index i on. */
  function SyncFrom(s: TrackState, ts: seq<Track>, i: nat): (r: TrackState)
    requires i <= |ts| && i <= |s.lines|
    ensures Wf(s) ==> Wf(r)
    ensures LinesHaveMeshes(s) ==> LinesHaveMeshes(r)
    ensures r.headsHandle == s.headsHandle && r.heads == s.heads
    ensures |r.lines| == Max(|s.lines|, |ts|) && r.next == s.next + (|r.lines| - |s.lines|)
    decreases |ts| - i
  {
    if i == |ts| then s
    else SyncFrom(SyncOne(s, ts[i], i), ts, i + 1)
  }

  /** The sync keeps every line at its index and appends the fresh handles in order. */
  lemma {:induction false} SyncFromLines(s: TrackState, ts: seq<Track>, i: nat)
    requires i <= |ts| && i <= |s.lines|
    ensures var r := SyncFrom(s, ts, i);
            r.lines == s.lines + Counted(s.next, r.next - s.next)
    decreases |ts| - i
  {
    if i < |ts| {
      var s1 := SyncOne(s, ts[i], i);
      var r := SyncFrom(s1, ts, i + 1);
      assert r == SyncFrom(s, ts, i);
      SyncFromLines(s1, ts, i + 1);
      if i == |s.lines| {
        CountedAfterPush(s.lines, s.next, r.lines, r.next);
      }
    }
  }

  /** Pushing the handle `lo` and then counting on from `lo + 1` is counting from `lo`. */
  lemma CountedAfterPush(xs: seq<Handle>, lo: nat, ys: seq<Handle>, hi: nat)
    requires lo + 1 <= hi
    requires ys == (xs + [lo]) + Counted(lo + 1, hi - (lo + 1))
    ensures ys == xs + Counted(lo, hi - lo)
  {
  }

  /** The sync adds exactly the fresh lines to the layer. */
  lemma {:induction false} SyncFromLayer(s: TrackState, ts: seq<Track>, i: nat)
    requires i <= |ts| && i <= |s.lines|
    ensures var r := SyncFrom(s, ts, i);
            r.layer == s.layer + Fresh(s.next, r.next)
    decreases |ts| - i
  {
    if i < |ts| {
      var s1 := SyncOne(s, ts[i], i);
      var r := SyncFrom(s1, ts, i + 1);
      assert r == SyncFrom(s, ts, i);
      SyncFromLayer(s1, ts, i + 1);
      FreshSplit(s.next, s1.next, r.next);
    }
  }

  /** The sync creates exactly the meshes of the fresh handles it hands out. */
  lemma {:induction false} SyncFromMeshKeys(s: TrackState, ts: seq<Track>, i: nat)
    requires LinesHaveMeshes(s) && i <= |ts| && i <= |s.lines|
    ensures var r := SyncFrom(s, ts, i);
            r.meshes.Keys == s.meshes.Keys + Fresh(s.next, r.next)
    decreases |ts| - i
  {
    if i < |ts| {
      var s1 := SyncOne(s, ts[i], i);
      var r := SyncFrom(s1, ts, i + 1);
      assert r == SyncFrom(s, ts, i);
      SyncFromMeshKeys(s1, ts, i + 1);
      FreshSplit(s.next, s1.next, r.next);
    }
  }

  /** The sync leaves alone every mesh other than the lines at indices i..|ts|. */
  lemma {:induction false} SyncFromKeepsOthers(s: TrackState, ts: seq<Track>, i: nat)
    requires Wf(s) && i <= |ts| && i <= |s.lines|
    ensures var r := SyncFrom(s, ts, i);
            forall h | h in s.meshes && h !in r.lines[i..|ts|] :: h in r.meshes && r.meshes[h] == s.meshes[h]
    decreases |ts| - i
  {
    if i < |ts| {
      var s1 := SyncOne(s, ts[i], i);
      var r := SyncFrom(s1, ts, i + 1);
      assert r == SyncFrom(s, ts, i);
      SyncFromKeepsOthers(s1, ts, i + 1);
      var line := s1.lines[i];
      assert r.lines[i] == line by {
        SyncFromLines(s1, ts, i + 1);
      }
      forall h | h in s.meshes && h !in r.lines[i..|ts|]
        ensures h in r.meshes && r.meshes[h] == s.meshes[h]
      {
        NotInSliceTail(r.lines, i, |ts|, h);
      }
    }
  }

  /** After the sync from index i, line k shows track k, for any k from i on. */
  lemma {:induction false} SyncFromWritesTrack(s: TrackState, ts: seq<Track>, i: nat, k: nat)
    requires Wf(s) && i <= k < |ts| && i <= |s.lines|
    ensures var r := SyncFrom(s, ts, i);
            r.lines[k] in r.meshes && r.meshes[r.lines[k]] == MeshOf(ts[k])
    decreases |ts| - i
  {
    var s1 := SyncOne(s, ts[i], i);
    var r := SyncFrom(s1, ts, i + 1);
    assert r == SyncFrom(s, ts, i);
    if k == i {
      SyncFromKeepsOthers(s1, ts, i + 1);
      SyncFromLines(s1, ts, i + 1);
      var line := s1.lines[i];
      assert r.lines[i] == line;
      assert line !in r.lines[i + 1..|ts|] by {
        DistinctNotInSuffix(r, i, |ts|);
      }
    } else {
      SyncFromWritesTrack(s1, ts, i + 1, k);
    }
  }

  /** After the sync from index i, line k shows track k for every k from i on. */
  lemma SyncFromWritesTracks(s: TrackState, ts: seq<Track>, i: nat)
    requires Wf(s) && i <= |ts| && i <= |s.lines|
    ensures var r := SyncFrom(s, ts, i);
            forall k | i <= k < |ts| :: r.lines[k] in r.meshes && r.meshes[r.lines[k]] == MeshOf(ts[k])
  {
    forall k | i <= k < |ts|
      ensures var r := SyncFrom(s, ts, i); r.lines[k] in r.meshes && r.meshes[r.lines[k]] == MeshOf(ts[k])
    {
      SyncFromWritesTrack(s, ts, i, k);
    }
  }

  /** A handle absent from xs[i..n] is neither xs[i] nor in xs[i + 1..n]. */
  lemma NotInSliceTail(xs: seq<Handle>, i: nat, n: nat, h: Handle)
    requires i < n <= |xs| && h !in xs[i..n]
    ensures h != xs[i] && h !in xs[i + 1..n]
  {
  }

  /** In a well-formed state the line at index i occurs nowhere after it. */
  lemma DistinctNotInSuffix(s: TrackState, i: nat, n: nat)
    requires Wf(s) && i < n <= |s.lines|
    ensures s.lines[i] !in s.lines[i + 1..n]
  {
  }

  /** The line half of `showTracks`: drop the surplus lines from the layer, then sync line i with track i. */
  function ReconcileLines(s: TrackState, ts: seq<Track>): (r: TrackState)
    requires Wf(s)
    ensures Wf(r)
    ensures r.headsHandle == s.headsHandle && r.heads == s.heads
    ensures |r.lines| == Max(|s.lines|, |ts|)
    ensures r.lines[..|s.lines|] == s.lines
  {
    var s2 := s.(layer := RemoveTrailing(s.layer, s.lines, |s.lines|, |ts|));
    SyncFromLines(s2, ts, 0);
    SyncFrom(s2, ts, 0)
  }

  /** No fresh handle is on the layer yet. */
  lemma FreshOffLayer(s: TrackState, hi: nat)
    requires Wf(s)
    ensures Fresh(s.next, hi) !! s.layer
  {
  }

  lemma ReconcileLinesLayer(s: TrackState, ts: seq<Track>)
    requires Wf(s)
    ensures var r := ReconcileLines(s, ts);
            r.layer == (s.layer - Surplus(s.lines, |ts|)) + Fresh(s.next, r.next)
  {
    var s2 := s.(layer := RemoveTrailing(s.layer, s.lines, |s.lines|, |ts|));
    SyncFromLayer(s2, ts, 0);
    if |ts| < |s.lines| {
      assert s.lines[|ts|..|s.lines|] == s.lines[|ts|..];
    }
    assert s2.layer == s.layer - Surplus(s.lines, |ts|);
  }

  /** The lines appended by the reconciliation are exactly the fresh handles, one per missing line. */
  lemma ReconcileLinesFresh(s: TrackState, ts: seq<Track>)
    requires Wf(s)
    ensures var r := ReconcileLines(s, ts);
            && r.next - s.next == Max(0, |ts| - |s.lines|)
            && Elements(r.lines[|s.lines|..]) == Fresh(s.next, r.next)
  {
    var s2 := s.(layer := RemoveTrailing(s.layer, s.lines, |s.lines|, |ts|));
    var r := SyncFrom(s2, ts, 0);
    SyncFromLines(s2, ts, 0);
    assert r.lines[|s.lines|..] == Counted(s.next, r.next - s.next);
    CountedElements(s.next, r.next - s.next);
  }

  /** After the reconciliation line k shows track k, and every mesh not among the first |ts| lines is untouched. */
  lemma ReconcileLinesMeshes(s: TrackState, ts: seq<Track>)
    requires Wf(s)
    ensures var r := ReconcileLines(s, ts);
            && (forall k | 0 <= k < |ts| :: r.meshes[r.lines[k]] == MeshOf(ts[k]))
            && (forall h | h in s.meshes && h !in r.lines[..|ts|] :: h in r.meshes && r.meshes[h] == s.meshes[h])
  {
    var s2 := s.(layer := RemoveTrailing(s.layer, s.lines, |s.lines|, |ts|));
    var r := SyncFrom(s2, ts, 0);
    SyncFromKeepsOthers(s2, ts, 0);
    SyncFromWritesTracks(s2, ts, 0);
    assert r.lines[0..|ts|] == r.lines[..|ts|];
  }

  /**
    `showTracks(trackLines)`: rebuild the head points, then reconcile the
    lines. Every track needs a last position and a last height: the source
    reads both unguarded.
   */
  function ShowTracks(s: TrackState, ts: seq<Track>, project: LngLat -> Coord): (r: TrackState)
    requires Wf(s)
    requires forall k | 0 <= k < |ts| :: HasHead(ts[k])
    ensures Wf(r)
    ensures r.headsHandle == s.headsHandle
    ensures |r.lines| == Max(|s.lines|, |ts|)
    ensures r.lines[..|s.lines|] == s.lines
  {
    ReconcileLines(s.(heads := FillHeads(ts, project).(needUpdate := true)), ts)
  }

  /** Slicing a concatenation within its first part. */
  lemma SliceOfPrefix(a: seq<real>, b: seq<real>, lo: nat, hi: nat)
    requires lo <= hi <= |a|
    ensures (a + b)[lo..hi] == a[lo..hi]
  {
  }

  /** Point k of the rebuilt buffers is track k's head, in the head colour. */
  lemma {:induction false} FillHeadsPoint(ts: seq<Track>, project: LngLat -> Coord, k: nat)
    requires forall j | 0 <= j < |ts| :: HasHead(ts[j])
    requires k < |ts|
    ensures var fh := FillHeads(ts, project);
            && fh.vertices[3 * k .. 3 * k + 3] == HeadPoint(ts[k], project)
            && fh.vertexColors[4 * k .. 4 * k + 4] == HeadColor
    decreases |ts|
  {
    var init := ts[..|ts| - 1];
    var prev := FillHeads(init, project);
    var fh := FillHeads(ts, project);
    var p := HeadPoint(Last(ts), project);
    assert fh.vertices == prev.vertices + p;
    assert fh.vertexColors == prev.vertexColors + HeadColor;
    if k < |init| {
      FillHeadsPoint(init, project, k);
      assert init[k] == ts[k];
      SliceOfPrefix(prev.vertices, p, 3 * k, 3 * k + 3);
      SliceOfPrefix(prev.vertexColors, HeadColor, 4 * k, 4 * k + 4);
    } else {
      assert 3 * k == |prev.vertices| && 4 * k == |prev.vertexColors|;
    }
  }

  /** After `showTracks` the point cloud holds exactly one point per track, at the track's head. */
  lemma ShowTracksHeads(s: TrackState, ts: seq<Track>, project: LngLat -> Coord)
    requires Wf(s)
    requires forall k | 0 <= k < |ts| :: HasHead(ts[k])
    ensures var h := ShowTracks(s, ts, project).heads;
            && h.needUpdate
            && |h.vertices| == 3 * |ts| && |h.vertexColors| == 4 * |ts| && |h.pointSizes| == |ts|
            && (forall k | 0 <= k < |ts| :: h.vertices[3 * k .. 3 * k + 3] == HeadPoint(ts[k], project))
            && (forall k | 0 <= k < |ts| :: h.vertexColors[4 * k .. 4 * k + 4] == HeadColor)
            && (forall k | 0 <= k < |ts| :: h.pointSizes[k] == HeadSize)
  {
    var fh := FillHeads(ts, project);
    var h := ShowTracks(s, ts, project).heads;
    assert h == fh.(needUpdate := true);
    forall k | 0 <= k < |ts|
      ensures h.vertices[3 * k .. 3 * k + 3] == HeadPoint(ts[k], project)
      ensures h.vertexColors[4 * k .. 4 * k + 4] == HeadColor
    {
      FillHeadsPoint(ts, project, k);
    }
  }

  /**
    After `showTracks` every old line keeps its index, the lines for tracks
    beyond the old count are freshly created, line k shows track k, and every
    other mesh is untouched.
   */
  lemma ShowTracksLines(s: TrackState, ts: seq<Track>, project: LngLat -> Coord)
    requires Wf(s)
    requires forall k | 0 <= k < |ts| :: HasHead(ts[k])
    ensures var r := ShowTracks(s, ts, project);
            && r.next - s.next == Max(0, |ts| - |s.lines|)
            && Elements(r.lines[|s.lines|..]) == Fresh(s.next, r.next)
            && (forall k | 0 <= k < |ts| :: r.meshes[r.lines[k]] == MeshOf(ts[k]))
            && (forall h | h in s.meshes && h !in r.lines[..|ts|] :: h in r.meshes && r.meshes[h] == s.meshes[h])
  {
    var s1 := s.(heads := FillHeads(ts, project).(needUpdate := true));
    ReconcileLinesFresh(s1, ts);
    ReconcileLinesMeshes(s1, ts);
  }

  /**
    The layer delta of `showTracks` is exact: the lines at indices |ts|.. leave
    it, the newly created lines join it, and no other member moves.
   */
  lemma ShowTracksLayer(s: TrackState, ts: seq<Track>, project: LngLat -> Coord)
    requires Wf(s)
    requires forall k | 0 <= k < |ts| :: HasHead(ts[k])
    ensures var r := ShowTracks(s, ts, project);
            && Fresh(s.next, r.next) !! s.layer
            && r.layer == (s.layer - Surplus(s.lines, |ts|)) + Fresh(s.next, r.next)
            && (s.headsHandle in s.layer ==> r.headsHandle in r.layer)
  {
    var r := ShowTracks(s, ts, project);
    var s1 := s.(heads := FillHeads(ts, project).(needUpdate := true));
    ReconcileLinesLayer(s1, ts);
    FreshOffLayer(s, r.next);
    assert s.headsHandle !in Surplus(s.lines, |ts|);
  }

  /** `showTracks` creates a mesh line only under a fresh handle, and forgets none. */
  lemma ShowTracksMeshKeys(s: TrackState, ts: seq<Track>, project: LngLat -> Coord)
    requires Wf(s)
    requires forall k | 0 <= k < |ts| :: HasHead(ts[k])
    ensures var r := ShowTracks(s, ts, project);
            r.meshes.Keys == s.meshes.Keys + Fresh(s.next, r.next)
  {
    var s1 := s.(heads := FillHeads(ts, project).(needUpdate := true));
    SyncFromMeshKeys(s1.(layer := RemoveTrailing(s1.layer, s1.lines, |s1.lines|, |ts|)), ts, 0);
  }
}
