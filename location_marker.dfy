/**
 * The records the activity keeps in a LocationScene. LocationMarker, Node and
 * AnchorNode belong to the ARCore-Location and Sceneform libraries; they are
 * modelled by the few fields LocationActivity.java reads or writes.
 */
module LocationMarkers {
  import opened Wrappers
  import opened Markers

  /** An ARCore anchor, known only by identity. */
  type AnchorId = nat

  /** A ViewRenderable built for one marker, known only by identity. */
  type RenderableId = nat

  /** A Sceneform node as getView builds it: a name and the renderable it shows. */
  datatype Node = Node(name: string, renderable: RenderableId)

  /** The scene-graph node that holds a marker's anchor. */
  datatype AnchorNode = AnchorNode(anchor: Option<AnchorId>, enabled: bool)

  /**
   * A LocationMarker: where it is (longitude, latitude, in the order its
   * constructor takes them), the node that shows it, the anchor node it owns
   * once the scene has placed it (None for Java's null), and the renderable
   * whose distance label its render event updates.
   */
  datatype LocationMarker = LocationMarker(
    longitude: Coordinate,
    latitude: Coordinate,
    node: Node,
    anchorNode: Option<AnchorNode>,
    renderEvent: Option<RenderableId>)

  /** One completed renderable build: Pair<ViewRenderable, Marker>. */
  datatype LoadedView = LoadedView(renderable: RenderableId, marker: Marker)

  /** The record owns an anchor node that still holds an anchor. */
  predicate HasLiveAnchor(r: LocationMarker)
  {
    r.anchorNode.Some? && r.anchorNode.value.anchor.Some?
  }

  /** The name a Sceneform Node starts with; getView never renames the node it builds. */
  const DefaultNodeName: string := "Node"

  /** getView: a fresh unnamed Node that shows the renderable. */
  function GetView(renderable: RenderableId, marker: Marker): (n: Node)
    ensures n.renderable == renderable
    ensures n.name == DefaultNodeName
  {
    Node(DefaultNodeName, renderable)
  }

  /**
   * One pass of the seeding loop of the frame callback: a LocationMarker built
   * from (getLongitude, getLatitude, getView), with a render event that writes
   * the distance into the pair's renderable. It has no anchor node yet.
   */
  function SeedMarker(v: LoadedView): (r: LocationMarker)
    ensures r.longitude == v.marker.Longitude() && r.latitude == v.marker.Latitude()
    ensures r.node == GetView(v.renderable, v.marker) && r.node.name == DefaultNodeName
    ensures r.node.renderable == v.renderable && r.renderEvent == Some(v.renderable)
    ensures r.anchorNode == None && !HasLiveAnchor(r)
  {
    var node := GetView(v.renderable, v.marker);
    LocationMarker(v.marker.Longitude(), v.marker.Latitude(), node, None, None).(renderEvent := Some(v.renderable))
  }

  /** The seeding loop over all loaded pairs: one record per pair, in the pairs' order. */
  function SeedAll(views: seq<LoadedView>): (r: seq<LocationMarker>)
    ensures |r| == |views|
    ensures forall j :: 0 <= j < |views| ==> r[j] == SeedMarker(views[j])
  {
    if views == [] then [] else SeedAll(views[..|views| - 1]) + [SeedMarker(views[|views| - 1])]
  }

  /**
   * The two argument swaps cancel out: a Marker built with latitude first is
   * seeded into a LocationMarker whose latitude slot holds that latitude and
   * whose longitude slot holds that longitude.
   */
  lemma SeedKeepsCoordinates(renderable: RenderableId, latitude: Coordinate, longitude: Coordinate,
                             title: string, kind: LocationType)
    ensures SeedMarker(LoadedView(renderable, NewMarker(latitude, longitude, title, kind))).latitude == latitude
    ensures SeedMarker(LoadedView(renderable, NewMarker(latitude, longitude, title, kind))).longitude == longitude
  {
  }

  /** Every seeded record carries the same node name, whatever its marker's title. */
  lemma SeededNamesAgree(views: seq<LoadedView>, i: nat, j: nat)
    requires i < |views| && j < |views|
    ensures SeedAll(views)[i].node.name == SeedAll(views)[j].node.name
  {
  }

  /** What eviction leaves behind: the record without its anchor node, and that node, released. */
  datatype Eviction = Eviction(record: LocationMarker, releasedNode: AnchorNode)

  /**
   * The teardown checkIfFoundAndReplace performs on the record it evicts:
   * the anchor is detached and taken off its node, the node is disabled,
   * and the record drops its reference to the node.
   */
  function TearDown(r: LocationMarker): (e: Eviction)
    requires HasLiveAnchor(r)
    ensures e.releasedNode.anchor == None && !e.releasedNode.enabled
    ensures e.record.anchorNode == None && !HasLiveAnchor(e.record)
    ensures e.record.node == r.node && e.record.renderEvent == r.renderEvent
    ensures e.record.longitude == r.longitude && e.record.latitude == r.latitude
  {
    var released := r.anchorNode.value.(anchor := None).(enabled := false);
    Eviction(r.(anchorNode := None), released)
  }
}
