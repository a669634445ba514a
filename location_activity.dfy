/**
 * The state LocationActivity keeps between callbacks, and the callbacks that
 * change it: renderable-loading completions, the per-frame update listener,
 * checkIfFoundAndReplace and the loading-message show/hide pair.
 */
module Activity {
  import opened Wrappers
  import opened Markers
  import opened LocationMarkers
  import opened Reconcile

  /** An ARCore frame, known by identity. */
  type FrameId = nat

  /** ARCore's TrackingState. */
  datatype TrackingState = Tracking | Paused | Stopped

  /** A plane the frame reports as updated; only its tracking state is read. */
  datatype Plane = Plane(trackingState: TrackingState)

  /** What the update listener reads from a frame: the camera's tracking state and the updated planes. */
  datatype Frame = Frame(id: FrameId, cameraTrackingState: TrackingState, updatedPlanes: seq<Plane>)

  /** Calls into code this model does not see, recorded in the order they happen. */
  datatype SceneEffect = AnchorDetached(anchor: AnchorId) | AnchorsRefreshed | FrameProcessed(frame: FrameId)

  /** The frame is forwarded to the scene only when there is one and its camera is tracking. */
  predicate Forwarded(frame: Option<Frame>)
  {
    frame.Some? && frame.value.cameraTrackingState == Tracking
  }

  /** Some plane among the updated planes is being tracked. */
  predicate HasTrackedPlane(planes: seq<Plane>)
  {
    exists k :: 0 <= k < |planes| && planes[k].trackingState == Tracking
  }

  /** The scene calls one update makes: processFrame, exactly when the frame is forwarded. */
  function FrameEffects(frame: Option<Frame>): (r: seq<SceneEffect>)
    ensures |r| <= 1
    ensures r != [] <==> Forwarded(frame)
    ensures Forwarded(frame) ==> r == [FrameProcessed(frame.value.id)]
  {
    if Forwarded(frame) then [FrameProcessed(frame.value.id)] else []
  }

  /**
   * The scene calls checkIfFoundAndReplace makes: when it evicts, the evicted
   * anchor is detached first and refreshAnchors runs last.
   */
  function ReplaceEffects(s: seq<LocationMarker>, capacity: nat, m: LocationMarker): (r: seq<SceneEffect>)
    requires CanReplace(s, capacity, m)
    ensures r == [] <==> EvictionIndex(s, capacity, m).None?
    ensures r != [] ==> |r| == 2 && r[1] == AnchorsRefreshed
    ensures r != [] ==> r[0] == AnchorDetached(s[EvictionIndex(s, capacity, m).value].anchorNode.value.anchor.value)
  {
    match EvictionIndex(s, capacity, m)
    case None => []
    case Some(i) => [AnchorDetached(s[i].anchorNode.value.anchor.value), AnchorsRefreshed]
  }

  /** The evicted record after its teardown, if any record is evicted. */
  function Evicted(s: seq<LocationMarker>, capacity: nat, m: LocationMarker): (r: Option<Eviction>)
    requires CanReplace(s, capacity, m)
    ensures r.Some? <==> EvictionIndex(s, capacity, m).Some?
    ensures r.Some? ==> r.value.record.node.name == m.node.name && r.value.record.anchorNode == None
    ensures r.Some? ==> r.value.releasedNode.anchor == None && !r.value.releasedNode.enabled
    ensures r.Some? ==> r.value.record == s[EvictionIndex(s, capacity, m).value].(anchorNode := None)
  {
    match EvictionIndex(s, capacity, m)
    case None => None
    case Some(i) => Some(TearDown(s[i]))
  }

  /** The indexes 0 .. n-1: one outstanding renderable build per marker. */
  function Indexes(n: nat): (r: set<nat>)
    ensures |r| == n
    ensures forall k: nat :: k in r <==> k < n
  {
    if n == 0 then {} else Indexes(n - 1) + {n - 1}
  }

  /** The ARCore-Location scene: its list of markers and the calls made into it. */
  class LocationScene {
    /** mLocationMarkers */
    var markers: seq<LocationMarker>
    var effects: seq<SceneEffect>

    constructor ()
      ensures markers == [] && effects == []
    {
      markers := [];
      effects := [];
    }

    /** processFrame, recorded as called; what it does to the markers is not modelled. */
    method ProcessFrame(frame: Frame)
      modifies this`effects
      ensures effects == old(effects) + [FrameProcessed(frame.id)]
    {
      effects := effects + [FrameProcessed(frame.id)];
    }

    /** refreshAnchors, recorded as called. */
    method RefreshAnchors()
      modifies this`effects
      ensures effects == old(effects) + [AnchorsRefreshed]
    {
      effects := effects + [AnchorsRefreshed];
    }
  }

  /** The loading-message snackbar: whether it is shown or queued for showing. */
  class Snackbar {
    var shownOrQueued: bool

    constructor ()
      ensures !shownOrQueued
    {
      shownOrQueued := false;
    }

    method Show()
      modifies this
      ensures shownOrQueued
    {
      shownOrQueued := true;
    }

    method Dismiss()
      modifies this
      ensures !shownOrQueued
    {
      shownOrQueued := false;
    }
  }

  class LocationActivity {
    /** The markers to show; their number is the scene's capacity. */
    const markerDataList: seq<Marker>
    /** Indexes of the markers whose renderable build has not completed yet. */
    var pending: set<nat>
    /** The completed (renderable, marker) pairs, in completion order. */
    var myRenderable: seq<LoadedView>
    var hasFinishedLoading: bool
    var locationScene: LocationScene?
    var loadingMessageSnackbar: Snackbar?

    /**
     * Loading is finished exactly when no build is outstanding; the scene exists
     * only once loading has finished, and never holds more markers than the
     * marker data list.
     */
    ghost predicate Valid()
      reads this`pending, this`myRenderable, this`hasFinishedLoading, this`locationScene, (if locationScene == null then {} else {locationScene})`markers
    {
      LoadingValid() && SceneValid()
    }

    /** Every outstanding build belongs to a marker, and loading is finished exactly when none is left. */
    ghost predicate LoadingValid()
      reads this`pending, this`myRenderable, this`hasFinishedLoading
    {
      && (forall k :: k in pending ==> k < |markerDataList|)
      && |myRenderable| + |pending| <= |markerDataList|
      && (hasFinishedLoading <==> pending == {})
    }

    /** The scene exists only once loading has finished, and it never holds more markers than the marker data list. */
    ghost predicate SceneValid()
      reads this`hasFinishedLoading, this`locationScene, (if locationScene == null then {} else {locationScene})`markers
    {
      locationScene != null ==> hasFinishedLoading && |locationScene.markers| <= |markerDataList|
    }

    /**
     * onCreate: the sample data is registered and one renderable build is
     * started per marker. With no markers the join completes at once and
     * loading is finished immediately.
     */
    constructor (sampleData: seq<Marker>)
      ensures Valid()
      ensures markerDataList == sampleData && myRenderable == []
      ensures forall k: nat :: k in pending <==> k < |sampleData|
      ensures hasFinishedLoading == (|sampleData| == 0)
      ensures locationScene == null && loadingMessageSnackbar == null
    {
      markerDataList := sampleData;
      pending := Indexes(|sampleData|);
      myRenderable := [];
      hasFinishedLoading := |sampleData| == 0;
      locationScene := null;
      loadingMessageSnackbar := null;
    }

    /**
     * A renderable build for marker k completes: its pair is appended, and when
     * it was the last outstanding build, the join sets hasFinishedLoading.
     */
    method OnRenderableBuilt(k: nat, renderable: RenderableId)
      requires Valid() && k in pending
      modifies this`pending, this`myRenderable, this`hasFinishedLoading
      ensures Valid()
      ensures myRenderable == old(myRenderable) + [LoadedView(renderable, markerDataList[k])]
      ensures pending == old(pending) - {k}
      ensures hasFinishedLoading == (pending == {})
    {
      myRenderable := myRenderable + [LoadedView(renderable, markerDataList[k])];
      pending := pending - {k};
      if pending == {} {
        hasFinishedLoading := true;
      }
    }

    /**
     * A renderable build for marker k fails: no pair is added, but the join
     * still fires once nothing is outstanding.
     */
    method OnRenderableFailed(k: nat)
      requires Valid() && k in pending
      modifies this`pending, this`hasFinishedLoading
      ensures Valid()
      ensures pending == old(pending) - {k}
      ensures hasFinishedLoading == (pending == {})
    {
      pending := pending - {k};
      if pending == {} {
        hasFinishedLoading := true;
      }
    }

    /**
     * checkIfFoundAndReplace. Does nothing without a scene. Below capacity it
     * appends the marker. At or above capacity it scans for the first record
     * with the marker's node name, detaches and clears that record's anchor,
     * disables and drops its anchor node, removes it, appends the marker and
     * refreshes the anchors; with no match the marker is dropped. `evicted`
     * is the removed record and its released anchor node, after teardown.
     */
    method CheckIfFoundAndReplace(scene: LocationScene?, m: LocationMarker) returns (ghost evicted: Option<Eviction>)
      requires Valid()
      requires scene != null ==> CanReplace(scene.markers, |markerDataList|, m)
      modifies scene
      ensures Valid()
      ensures scene == null ==> evicted == None
      ensures scene != null ==> scene.markers == Replace(old(scene.markers), |markerDataList|, m)
      ensures scene != null ==> scene.effects == old(scene.effects) + ReplaceEffects(old(scene.markers), |markerDataList|, m)
      ensures scene != null ==> evicted == Evicted(old(scene.markers), |markerDataList|, m)
    {
      if scene == null {
        evicted := None;
        return;
      }
      var markers := scene.markers;
      ghost var s := markers;
      if |markers| >= |markerDataList| {
        var i := 0;
        while i < |markers|
          invariant 0 <= i <= |markers|
          invariant forall j :: 0 <= j < i ==> markers[j].node.name != m.node.name
        {
          if markers[i].node.name == m.node.name {
            assert FirstMatch(s, m.node.name) == Some(i);
            assert EvictionIndex(s, |markerDataList|, m) == Some(i);
            var record := markers[i];
            var anchorNode := record.anchorNode.value;
            scene.effects := scene.effects + [AnchorDetached(anchorNode.anchor.value)];
            anchorNode := anchorNode.(anchor := None);
            anchorNode := anchorNode.(enabled := false);
            record := record.(anchorNode := None);
            markers := markers[i := record];
            evicted := Some(Eviction(record, anchorNode));
            markers := markers[..i] + markers[i + 1..];
            assert markers == s[..i] + s[i + 1..];
            markers := markers + [m];
            ReplaceEvictsFirstMatch(s, |markerDataList|, m, i);
            scene.markers := markers;
            scene.RefreshAnchors();
            return;
          }
          i := i + 1;
        }
        assert EvictionIndex(s, |markerDataList|, m) == None;
        evicted := None;
      } else {
        scene.markers := markers + [m];
        evicted := None;
      }
    }

    /** hideLoadingMessage: a no-op without a snackbar; otherwise dismisses it and clears the field. */
    method HideLoadingMessage()
      modifies this`loadingMessageSnackbar, loadingMessageSnackbar
      ensures loadingMessageSnackbar == null
      ensures old(loadingMessageSnackbar) != null ==> !old(loadingMessageSnackbar).shownOrQueued
    {
      if loadingMessageSnackbar == null {
        return;
      }
      loadingMessageSnackbar.Dismiss();
      loadingMessageSnackbar := null;
    }

    /**
     * showLoadingMessage: keeps a snackbar that is already shown or queued;
     * otherwise makes a new one and shows it.
     */
    method ShowLoadingMessage()
      modifies this`loadingMessageSnackbar
      ensures old(loadingMessageSnackbar) != null && old(loadingMessageSnackbar.shownOrQueued)
              ==> loadingMessageSnackbar == old(loadingMessageSnackbar)
      ensures !(old(loadingMessageSnackbar) != null && old(loadingMessageSnackbar.shownOrQueued))
              ==> loadingMessageSnackbar != null && fresh(loadingMessageSnackbar) && loadingMessageSnackbar.shownOrQueued
    {
      if loadingMessageSnackbar != null && loadingMessageSnackbar.shownOrQueued {
        return;
      }
      var snackbar := new Snackbar();
      loadingMessageSnackbar := snackbar;
      snackbar.Show();
    }

    /**
     * The lazy set-up block of the update listener: a new scene, seeded with
     * one marker per loaded pair, in the pairs' order.
     */
    method SeedLocationScene()
      requires Valid() && hasFinishedLoading && locationScene == null
      modifies this`locationScene
      ensures Valid()
      ensures locationScene != null && fresh(locationScene)
      ensures locationScene.markers == SeedAll(myRenderable) && locationScene.effects == []
    {
      var scene := new LocationScene();
      locationScene := scene;
      var k := 0;
      while k < |myRenderable|
        invariant 0 <= k <= |myRenderable|
        invariant locationScene == scene
        invariant scene.markers == SeedAll(myRenderable[..k]) && scene.effects == []
      {
        assert myRenderable[..k + 1][..k] == myRenderable[..k];
        scene.markers := scene.markers + [SeedMarker(myRenderable[k])];
        k := k + 1;
      }
      assert myRenderable[..k] == myRenderable;
    }

    /**
     * The plane loop of the update listener: each tracked plane among the
     * frame's updated planes hides the loading message.
     */
    method HideOnTrackedPlane(planes: seq<Plane>)
      modifies this`loadingMessageSnackbar, loadingMessageSnackbar
      ensures HasTrackedPlane(planes) ==> loadingMessageSnackbar == null
      ensures HasTrackedPlane(planes) && old(loadingMessageSnackbar) != null ==> !old(loadingMessageSnackbar).shownOrQueued
      ensures !HasTrackedPlane(planes) ==> loadingMessageSnackbar == old(loadingMessageSnackbar)
      ensures !HasTrackedPlane(planes) && old(loadingMessageSnackbar) != null ==> unchanged(old(loadingMessageSnackbar))
    {
      ghost var snackbar := loadingMessageSnackbar;
      var k := 0;
      while k < |planes|
        invariant 0 <= k <= |planes|
        invariant HasTrackedPlane(planes[..k]) ==> loadingMessageSnackbar == null
        invariant HasTrackedPlane(planes[..k]) && snackbar != null ==> !snackbar.shownOrQueued
        invariant !HasTrackedPlane(planes[..k]) ==> loadingMessageSnackbar == snackbar
        invariant !HasTrackedPlane(planes[..k]) && snackbar != null ==> unchanged(snackbar)
      {
        assert planes[..k + 1] == planes[..k] + [planes[k]];
        if planes[k].trackingState == Tracking {
          HideLoadingMessage();
        }
        k := k + 1;
      }
      assert planes[..k] == planes;
    }

    /**
     * The scene's update listener, run once per frame. Nothing happens until
     * loading has finished. The first time after that, the scene is built and
     * seeded with one marker per loaded pair, whatever the frame. The frame is
     * then forwarded to processFrame only if there is one and its camera is
     * tracking; and while a loading message is up, a tracked updated plane
     * hides it.
     */
    method OnUpdate(frame: Option<Frame>)
      requires Valid()
      modifies this`locationScene, locationScene, this`loadingMessageSnackbar, loadingMessageSnackbar
      ensures Valid()
      ensures !hasFinishedLoading ==> locationScene == null
      ensures hasFinishedLoading ==> locationScene != null
      ensures old(locationScene) != null ==> locationScene == old(locationScene) && locationScene.markers == old(locationScene.markers)
      ensures hasFinishedLoading && old(locationScene) == null ==> fresh(locationScene) && locationScene.markers == SeedAll(myRenderable)
      ensures hasFinishedLoading ==>
                locationScene.effects == (if old(locationScene) == null then [] else old(locationScene.effects)) + FrameEffects(frame)
      ensures hasFinishedLoading && Forwarded(frame) && old(loadingMessageSnackbar) != null && HasTrackedPlane(frame.value.updatedPlanes)
              ==> loadingMessageSnackbar == null && !old(loadingMessageSnackbar).shownOrQueued
      ensures !(hasFinishedLoading && Forwarded(frame) && old(loadingMessageSnackbar) != null && HasTrackedPlane(frame.value.updatedPlanes))
              ==> loadingMessageSnackbar == old(loadingMessageSnackbar)
                  && (loadingMessageSnackbar != null ==> loadingMessageSnackbar.shownOrQueued == old(loadingMessageSnackbar.shownOrQueued))
    {
      if !hasFinishedLoading {
        return;
      }
      if locationScene == null {
        SeedLocationScene();
      }

      if frame.None? {
        return;
      }
      if frame.value.cameraTrackingState != Tracking {
        return;
      }
      if locationScene != null {
        locationScene.ProcessFrame(frame.value);
      }

      if loadingMessageSnackbar != null {
        HideOnTrackedPlane(frame.value.updatedPlanes);
      }
    }
  }
}
