/**
  Properties of `showTracks` over several calls. The loop that drops surplus
  lines removes them from the layer but never shortens `this.lines`, so a later
  call with more tracks reuses those lines in place and they stay off the
  layer. `ShowTracksTruncating` is the call with `this.lines.length` cut back
  to the track count; with it every line in the array is shown.
 */
module TrackLinesProperties {
  import opened Common
  import opened TrackLines

  /** Every line in the array is on the layer. */
  ghost predicate LinesShown(s: TrackState)
  {
    forall k | 0 <= k < |s.lines| :: s.lines[k] in s.layer
  }

  lemma InitShowsLines()
    ensures LinesShown(Init()) && Wf(Init())
  {
  }

  /**
    As written: after a call with fewer tracks than lines and then one with
    more, the lines at the indices in between are drawn with the new tracks
    but are not on the layer.
   */
  lemma ShrinkThenGrowHidesLines(s: TrackState, ts: seq<Track>, us: seq<Track>, project: LngLat -> Coord)
    requires Wf(s)
    requires forall k | 0 <= k < |ts| :: HasHead(ts[k])
    requires forall k | 0 <= k < |us| :: HasHead(us[k])
    requires |ts| < |s.lines| && |ts| < |us|
    ensures var r1 := ShowTracks(s, ts, project);
            var r2 := ShowTracks(r1, us, project);
            forall k | |ts| <= k < Min(|s.lines|, |us|) ::
              && r2.lines[k] == s.lines[k]
              && r2.lines[k] !in r2.layer
              && r2.lines[k] in r2.meshes && r2.meshes[r2.lines[k]] == MeshOf(us[k])
  {
    var r1 := ShowTracks(s, ts, project);
    var r2 := ShowTracks(r1, us, project);
    ShowTracksLayer(s, ts, project);
    ShowTracksLayer(r1, us, project);
    ShowTracksLines(r1, us, project);
    forall k | |ts| <= k < Min(|s.lines|, |us|)
      ensures r2.lines[k] == s.lines[k] && r2.lines[k] !in r2.layer
    {
      assert r1.lines[k] == s.lines[k] by {
        assert r1.lines[..|s.lines|][k] == s.lines[k];
      }
      assert r2.lines[k] == r1.lines[k] by {
        assert r2.lines[..|r1.lines|][k] == r1.lines[k];
      }
      assert s.lines[k] in Surplus(s.lines, |ts|) by {
        assert s.lines[|ts|..][k - |ts|] == s.lines[k];
      }
      assert s.lines[k] in s.meshes;
      assert s.lines[k] !in Fresh(s.next, r1.next);
      assert s.lines[k] !in Fresh(r1.next, r2.next);
    }
  }

  /** Two lines, then no track, then two tracks: both lines are drawn and neither is shown. */
  lemma ShrinkToNothingExample(t1: Track, t2: Track, project: LngLat -> Coord)
    requires HasHead(t1) && HasHead(t2)
    ensures var s := ShowTracks(Init(), [t1, t2], project);
            var r := ShowTracks(ShowTracks(s, [], project), [t1, t2], project);
            && LinesShown(s)
            && |r.lines| == 2
            && r.lines[0] !in r.layer && r.lines[1] !in r.layer
            && !LinesShown(r)
  {
    var s := ShowTracks(Init(), [t1, t2], project);
    ShowTracksLayer(Init(), [t1, t2], project);
    ShowTracksLines(Init(), [t1, t2], project);
    assert s.lines[0] in Elements(s.lines[0..]) && s.lines[1] in Elements(s.lines[0..]) by {
      assert s.lines[0..][0] == s.lines[0] && s.lines[0..][1] == s.lines[1];
    }
    ShrinkThenGrowHidesLines(s, [], [t1, t2], project);
  }

  /**
    The reconciliation with `this.lines.length = trackLines.length` after the
    removal loop: the surplus lines leave both the layer and the array.
   */
  function ReconcileLinesTruncating(s: TrackState, ts: seq<Track>): (r: TrackState)
    requires Wf(s)
    ensures Wf(r)
    ensures r.headsHandle == s.headsHandle && r.heads == s.heads
    ensures |r.lines| == |ts|
    ensures r.lines[..Min(|s.lines|, |ts|)] == s.lines[..Min(|s.lines|, |ts|)]
  {
    var s2 := DropSurplus(s, |ts|);
    SyncFromLines(s2, ts, 0);
    SyncFrom(s2, ts, 0)
  }

  /** The removal loop followed by `this.lines.length = n`. */
  function DropSurplus(s: TrackState, n: nat): (r: TrackState)
    requires Wf(s)
    ensures Wf(r)
    ensures r.headsHandle == s.headsHandle && r.heads == s.heads && r.meshes == s.meshes && r.next == s.next
    ensures r.lines == s.lines[..Min(|s.lines|, n)]
    ensures r.layer == s.layer - Surplus(s.lines, n)
  {
    if n < |s.lines| then
      assert s.lines[n..|s.lines|] == s.lines[n..];
      s.(layer := RemoveTrailing(s.layer, s.lines, |s.lines|, n), lines := s.lines[..n])
    else s
  }

  /** `showTracks` with the truncation. */
  function ShowTracksTruncating(s: TrackState, ts: seq<Track>, project: LngLat -> Coord): (r: TrackState)
    requires Wf(s)
    requires forall k | 0 <= k < |ts| :: HasHead(ts[k])
    ensures Wf(r)
    ensures r.headsHandle == s.headsHandle
    ensures |r.lines| == |ts|
    ensures r.lines[..Min(|s.lines|, |ts|)] == s.lines[..Min(|s.lines|, |ts|)]
  {
    ReconcileLinesTruncating(s.(heads := FillHeads(ts, project).(needUpdate := true)), ts)
  }

  /** A line before index n of a well-formed array is not among its lines from n on. */
  lemma NotSurplus(s: TrackState, n: nat, k: nat)
    requires Wf(s) && k < n
    ensures k < |s.lines| ==> s.lines[k] !in Surplus(s.lines, n)
  {
  }

  /** The layer delta of the truncating reconciliation is that of the as-written one. */
  lemma {:induction false} ReconcileLinesTruncatingLayer(s: TrackState, ts: seq<Track>)
    requires Wf(s)
    ensures var r := ReconcileLinesTruncating(s, ts);
            r.layer == (s.layer - Surplus(s.lines, |ts|)) + Fresh(s.next, r.next)
  {
    SyncFromLayer(DropSurplus(s, |ts|), ts, 0);
  }

  /** The lines it appends, from the old count on, are fresh handles. */
  lemma {:induction false} ReconcileLinesTruncatingFresh(s: TrackState, ts: seq<Track>)
    requires Wf(s)
    ensures var r := ReconcileLinesTruncating(s, ts);
            forall k | Min(|s.lines|, |ts|) <= k < |ts| :: r.lines[k] in Fresh(s.next, r.next)
  {
    var n := Min(|s.lines|, |ts|);
    var s2 := DropSurplus(s, |ts|);
    var r := SyncFrom(s2, ts, 0);
    SyncFromLines(s2, ts, 0);
    forall k | n <= k < |ts| ensures r.lines[k] in Fresh(s.next, r.next) {
      CountedAt(s.next, r.next - s.next, k - n);
    }
  }

  /** Line k of the truncating reconciliation shows track k. */
  lemma ReconcileLinesTruncatingTracks(s: TrackState, ts: seq<Track>)
    requires Wf(s)
    ensures var r := ReconcileLinesTruncating(s, ts);
            forall k | 0 <= k < |ts| :: r.lines[k] in r.meshes && r.meshes[r.lines[k]] == MeshOf(ts[k])
  {
    SyncFromWritesTracks(DropSurplus(s, |ts|), ts, 0);
  }

  /** The truncating reconciliation keeps every line shown. */
  lemma ReconcileLinesTruncatingShows(s: TrackState, ts: seq<Track>)
    requires Wf(s) && LinesShown(s)
    ensures LinesShown(ReconcileLinesTruncating(s, ts))
  {
    var r := ReconcileLinesTruncating(s, ts);
    var n := Min(|s.lines|, |ts|);
    ReconcileLinesTruncatingLayer(s, ts);
    ReconcileLinesTruncatingFresh(s, ts);
    forall k | 0 <= k < |r.lines| ensures r.lines[k] in r.layer {
      if k < n {
        assert r.lines[k] == s.lines[k] by {
          assert r.lines[..n][k] == s.lines[..n][k];
        }
        NotSurplus(s, |ts|, k);
      }
    }
  }

  /**
    With the truncation every line in the array is shown after each call, and
    line k shows track k: the property the as-written call loses.
   */
  lemma ShowTracksTruncatingShowsLines(s: TrackState, ts: seq<Track>, project: LngLat -> Coord)
    requires Wf(s) && LinesShown(s)
    requires forall k | 0 <= k < |ts| :: HasHead(ts[k])
    ensures var r := ShowTracksTruncating(s, ts, project);
            && LinesShown(r)
            && (forall k | 0 <= k < |ts| :: r.lines[k] in r.meshes && r.meshes[r.lines[k]] == MeshOf(ts[k]))
  {
    var s1 := s.(heads := FillHeads(ts, project).(needUpdate := true));
    ReconcileLinesTruncatingShows(s1, ts);
    ReconcileLinesTruncatingTracks(s1, ts);
  }
}
