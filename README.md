# Location markers of the ARCore-Location sample activity

This project models the marker bookkeeping of the Sceneform sample app of ARCore-Location.
The app shows geo-tagged points of interest in an augmented-reality camera view.
What is modelled:

- `Marker`: an immutable value record with longitude, latitude, title and location type (module `Markers`).
- The records the activity puts into its `LocationScene`. Each is a `LocationMarker` with its node name, its anchor node and anchor, and its render event (module `LocationMarkers`).
- The replacement rule of `checkIfFoundAndReplace`, written as functions of the marker list (module `Reconcile`).
- `LocationActivity` as a class (module `Activity`). Its fields are the loading state, the scene and the loading-message snackbar. Its methods are:
  - the renderable-loading completions;
  - the per-frame update listener, with lazy scene construction and frame gating;
  - `checkIfFoundAndReplace`, performed step by step on the scene's list;
  - the loading-message show/hide pair.

`LocationScene` is a class holding the marker list `mLocationMarkers` as a `seq`. It also keeps a log of the calls the activity makes into code that is not modelled: anchor detach, `refreshAnchors` and `processFrame`. Frames, tracking states and planes are inputs of the update listener.

Points about the replacement rule worth knowing:

- Below capacity, the incoming marker is appended without a name check.
- The capacity is the size of the marker data list. It is not the number of renderables that finished loading.
- `getView` never names the node it builds, so every seeded record has the same default node name. Two conditions apply when such a list is at capacity:
  - If the incoming marker also has the default name, its first name match is the oldest record, and that record is the one chosen for eviction (`ReplaceEvictsOldestNamesake`).
  - A freshly seeded record has no anchor node until the library places one. Evicting it would make the source throw a NullPointerException at the anchor detach rather than replace anything. So a list just seeded to capacity cannot go through an eviction at all (`SeededListCannotEvict`).

## Model

| member | source | states |
|---|---|---|
| Markers.NewMarker | examples/sceneform/app/src/main/java/uk/co/appoly/sceneform_example/model/Marker.java:9-30 | The constructor takes latitude first and longitude second. `Latitude()`, `Longitude()`, `Title()` and `LocationTypeOf()` each return the constructor argument of the same name, although longitude is the field declared first. |
| Markers.MarkerIsItsGetters | examples/sceneform/app/src/main/java/uk/co/appoly/sceneform_example/model/Marker.java:4-7 | A marker is fully given by its four getters: rebuilding it from them gives the same value. So no hidden or mutable state exists. |
| LocationMarkers.GetView | examples/sceneform/app/src/main/java/uk/co/appoly/sceneform_example/LocationActivity.java:191-196 | The node shows the given renderable and carries the default node name, whatever the marker. |
| LocationMarkers.SeedMarker | examples/sceneform/app/src/main/java/uk/co/appoly/sceneform_example/LocationActivity.java:125-137 | A seeded record takes its longitude from `getLongitude` and its latitude from `getLatitude`. Its node is the one `getView` builds for the pair, so it shows the pair's renderable under the default name. Its render event targets that renderable, and it has no anchor node yet. |
| LocationMarkers.SeedAll | examples/sceneform/app/src/main/java/uk/co/appoly/sceneform_example/LocationActivity.java:125-138 | Seeding gives exactly one record per loaded pair, in the pairs' order. |
| LocationMarkers.SeedKeepsCoordinates | examples/sceneform/app/src/main/java/uk/co/appoly/sceneform_example/LocationActivity.java:126-128 | The two argument-order swaps (Marker's constructor and LocationMarker's) cancel out: the seeded record's latitude is the latitude the Marker was built with, and the same holds for longitude. |
| LocationMarkers.SeededNamesAgree | examples/sceneform/app/src/main/java/uk/co/appoly/sceneform_example/LocationActivity.java:191-196 | Every seeded record carries the same node name, because `getView` never sets one. |
| LocationMarkers.TearDown | examples/sceneform/app/src/main/java/uk/co/appoly/sceneform_example/LocationActivity.java:175-178 | After teardown the released anchor node holds no anchor and is disabled. The record no longer references an anchor node. Position, node and render event are unchanged. |
| Reconcile.FirstMatch | examples/sceneform/app/src/main/java/uk/co/appoly/sceneform_example/LocationActivity.java:173-174 | Returns the lowest index whose node name equals the incoming name, with no match before it. Returns None exactly when no record has that name. |
| Reconcile.EvictionIndex | examples/sceneform/app/src/main/java/uk/co/appoly/sceneform_example/LocationActivity.java:172-174 | A record is chosen for eviction exactly when the list is at or above capacity and some record has the incoming name. The chosen record is the first such record: it has the incoming name and no record before it does. |
| Reconcile.Replace | examples/sceneform/app/src/main/java/uk/co/appoly/sceneform_example/LocationActivity.java:172-188 | The list after one call: below capacity it grows by one; at or above capacity its length is unchanged. With no eviction at capacity it is unchanged. Whenever the marker is added, it is last. |
| Reconcile.ReplaceBelowCapacity | examples/sceneform/app/src/main/java/uk/co/appoly/sceneform_example/LocationActivity.java:186-188 | Below capacity, the marker is appended at the end with no name check. The old records are kept as they were, and the length grows by exactly one. |
| Reconcile.ReplaceAtCapacityKeepsLength | examples/sceneform/app/src/main/java/uk/co/appoly/sceneform_example/LocationActivity.java:172-185 | At or above capacity, the length is unchanged. |
| Reconcile.ReplaceWithinCapacity | examples/sceneform/app/src/main/java/uk/co/appoly/sceneform_example/LocationActivity.java:172-188 | A list at or below capacity stays at or below it after one call. |
| Reconcile.ReplaceAllWithinCapacity | examples/sceneform/app/src/main/java/uk/co/appoly/sceneform_example/LocationActivity.java:172-188 | For any sequence of calls, a list that starts within capacity never exceeds it. |
| Reconcile.ReplaceAllAtCapacityKeepsLength | examples/sceneform/app/src/main/java/uk/co/appoly/sceneform_example/LocationActivity.java:172-185 | For any sequence of calls, a list at or above capacity keeps its length. |
| Reconcile.ReplaceEvictsFirstMatch | examples/sceneform/app/src/main/java/uk/co/appoly/sceneform_example/LocationActivity.java:173-183 | At capacity, only the lowest-index name match is replaced. Records before it keep their places. Records after it move up by one, in order. The new marker is last. As a multiset, the list loses the evicted record and gains the marker. |
| Reconcile.ReplaceKeepsLaterNamesakes | examples/sceneform/app/src/main/java/uk/co/appoly/sceneform_example/LocationActivity.java:173-183 | A later record with the same name as an earlier match is not evicted. It only moves up by one place. |
| Reconcile.ReplaceWithoutMatchDrops | examples/sceneform/app/src/main/java/uk/co/appoly/sceneform_example/LocationActivity.java:172-185 | At capacity with no name match, the list is unchanged and the marker is dropped. |
| Reconcile.ReplaceEvictsOldestNamesake | examples/sceneform/app/src/main/java/uk/co/appoly/sceneform_example/LocationActivity.java:173-183 | When the oldest record has the incoming name, replacement at capacity drops the oldest record and appends the marker. Seeded records all share the default name, so this covers a default-named incoming marker. |
| Reconcile.SeededListCannotEvict | examples/sceneform/app/src/main/java/uk/co/appoly/sceneform_example/LocationActivity.java:172-179 | In a non-empty list seeded to capacity, a default-named incoming marker's first match is the oldest record. That record has no anchor node, so the precondition that avoids the NullPointerException fails: the source would throw instead of replacing. |
| Activity.FrameEffects | examples/sceneform/app/src/main/java/uk/co/appoly/sceneform_example/LocationActivity.java:141-152 | `processFrame` is called at most once per update, and only when the frame is non-null and its camera is TRACKING; when it is called, it is called on this very frame. |
| Activity.ReplaceEffects | examples/sceneform/app/src/main/java/uk/co/appoly/sceneform_example/LocationActivity.java:175-182 | An eviction makes two calls. First it detaches the anchor held by the evicted record's anchor node, then it calls `refreshAnchors`. No eviction means no call. |
| Activity.Evicted | examples/sceneform/app/src/main/java/uk/co/appoly/sceneform_example/LocationActivity.java:173-179 | An evicted record exists exactly when a record is chosen for eviction. It is that record with the incoming name, minus its anchor node. The released node holds no anchor and is disabled. |
| Activity.Indexes | examples/sceneform/app/src/main/java/uk/co/appoly/sceneform_example/LocationActivity.java:91-101 | One outstanding build is started per marker: n indexes, exactly 0 to n-1. |
| Activity.LocationActivity.constructor | examples/sceneform/app/src/main/java/uk/co/appoly/sceneform_example/LocationActivity.java:89-108 | The marker data is registered and every marker's build is outstanding. Loading counts as finished at once only when there are no markers, because the join over zero futures completes immediately. There is no scene and no snackbar yet. |
| Activity.LocationActivity.OnRenderableBuilt | examples/sceneform/app/src/main/java/uk/co/appoly/sceneform_example/LocationActivity.java:95-108 | A completed build appends its (renderable, marker) pair. `hasFinishedLoading` is set exactly when no build is outstanding. |
| Activity.LocationActivity.OnRenderableFailed | examples/sceneform/app/src/main/java/uk/co/appoly/sceneform_example/LocationActivity.java:103-108 | A failed build adds no pair, but the join still fires once nothing is outstanding. |
| Activity.LocationActivity.CheckIfFoundAndReplace | examples/sceneform/app/src/main/java/uk/co/appoly/sceneform_example/LocationActivity.java:168-189 | With a null scene, nothing changes. Otherwise the list becomes `Replace` of the old list, the call log grows by `ReplaceEffects`, and the evicted record is returned as `TearDown` of the first match. The invariant that the scene never holds more than the marker data list is preserved. |
| Activity.LocationActivity.HideLoadingMessage | examples/sceneform/app/src/main/java/uk/co/appoly/sceneform_example/LocationActivity.java:306-313 | With no snackbar, nothing changes. Otherwise the snackbar is dismissed and the field is nulled. Afterwards the field is always null, so a second call changes nothing: hiding is idempotent. |
| Activity.LocationActivity.ShowLoadingMessage | examples/sceneform/app/src/main/java/uk/co/appoly/sceneform_example/LocationActivity.java:292-304 | A snackbar that is already shown or queued is kept. Otherwise a new snackbar is made and shown. |
| Activity.LocationActivity.SeedLocationScene | examples/sceneform/app/src/main/java/uk/co/appoly/sceneform_example/LocationActivity.java:120-139 | The lazy set-up builds a fresh scene whose list is `SeedAll` of the loaded pairs. No scene call is made. The scene stays within the marker data list. |
| Activity.LocationActivity.HideOnTrackedPlane | examples/sceneform/app/src/main/java/uk/co/appoly/sceneform_example/LocationActivity.java:154-160 | If any updated plane is tracked, the snackbar is dismissed and the field ends null. Otherwise the field and the snackbar are unchanged. |
| Activity.LocationActivity.OnUpdate | examples/sceneform/app/src/main/java/uk/co/appoly/sceneform_example/LocationActivity.java:115-161 | While loading is unfinished, nothing changes. The scene is built at most once. It is seeded with `SeedAll` of the loaded pairs before, and regardless of, the frame checks. Only a non-null frame whose camera is TRACKING reaches `processFrame`. A shown loading message is hidden exactly when such a frame has a tracked updated plane. The scene never exceeds the marker data list. |

## Left out

- Activity lifecycle and session plumbing (`onResume`, `onPause`, `onDestroy`, `onRequestPermissionsResult`, `onWindowFocusChanged`). These are calls into Android, ARCore and Sceneform, with their exception handling.
- `generateSampleData`: its literal coordinates are static data. The constructor takes the marker list as a parameter instead.
- The asynchronous renderable builds and the `CompletableFuture.allOf(...).handle` join are modelled as sequential completion events. The join is folded into the last completion. Setting the title text on each view is UI and is not modelled.
- Activity.LocationActivity.OnUpdate: the render event only formats a distance into a `TextView`. It is modelled only as the renderable it targets. Distances and geo-to-scene projection are floating-point work inside the library.
- Activity.LocationScene.ProcessFrame: recorded as called, and the marker list is left unchanged. The library's `processFrame` and `refreshAnchors` are not part of this model, so whatever they do to the markers is not captured.
- Activity.LocationActivity.ShowLoadingMessage: snackbar construction and styling are not modelled. `isShownOrQueued` is read from a flag that only `show` and `dismiss` change, so dismissals by the user or the snackbar manager are not captured.
- Activity.LocationActivity.CheckIfFoundAndReplace: records are values in a `seq`. Aliasing is not captured, such as one LocationMarker object at two places in the list or the incoming marker already in it.
- Activity.LocationActivity.CheckIfFoundAndReplace: node names are non-null strings and the incoming marker is present. The cases where the source would throw a NullPointerException are excluded by the precondition `CanReplace`: the evicted record must own an anchor node that holds an anchor. Every record always has a node: a record whose `node` field is null, which would make the source throw at the name comparison (LocationActivity.java:174), is not modelled.
- LocationMarkers.GetView: Sceneform's `Node` starts with a default name, modelled as the constant `DefaultNodeName`. The Node and LocationMarker classes are not part of this model.
- LocationType.java is not part of this model. `LocationType` lists only the two values the sample data uses.
- Coordinates are Java doubles, kept as their raw 64-bit patterns because they are only stored and returned. No floating-point arithmetic is modelled.
