/**
 * The list rule of checkIfFoundAndReplace, as functions of the marker list:
 * which record it evicts and what the list becomes. The method that performs
 * it step by step on a LocationScene is proved against these functions.
 */
module Reconcile {
  import opened Wrappers
  import opened LocationMarkers

  /** The index of the first record, scanning in index order, whose node carries `name`. */
  function FirstMatch(s: seq<LocationMarker>, name: string): (r: Option<nat>)
    ensures r.Some? ==> r.value < |s| && s[r.value].node.name == name
    ensures r.Some? ==> forall j :: 0 <= j < r.value ==> s[j].node.name != name
    ensures r.None? <==> forall j :: 0 <= j < |s| ==> s[j].node.name != name
  {
    if s == [] then None
    else if s[0].node.name == name then Some(0)
    else match FirstMatch(s[1..], name)
      case None => None
      case Some(i) => Some(i + 1)
  }

  /** The record that is torn down and removed: the first name match, and only at or above capacity. */
  function EvictionIndex(s: seq<LocationMarker>, capacity: nat, m: LocationMarker): (r: Option<nat>)
    ensures r.Some? ==> |s| >= capacity && r.value < |s| && s[r.value].node.name == m.node.name
    ensures r.Some? <==> |s| >= capacity && exists j :: 0 <= j < |s| && s[j].node.name == m.node.name
    ensures r.Some? ==> forall j :: 0 <= j < r.value ==> s[j].node.name != m.node.name
  {
    if |s| < capacity then None else FirstMatch(s, m.node.name)
  }

  /**
   * What the source needs in order not to throw a NullPointerException: the
   * record it evicts owns an anchor node, and that node holds an anchor.
   */
  predicate CanReplace(s: seq<LocationMarker>, capacity: nat, m: LocationMarker)
  {
    EvictionIndex(s, capacity, m).Some? ==> HasLiveAnchor(s[EvictionIndex(s, capacity, m).value])
  }

  /**
   * The list after checkIfFoundAndReplace: below capacity the marker is
   * appended; at or above it the first record with the marker's name is
   * removed and the marker appended; with no such record the marker is dropped.
   */
  function Replace(s: seq<LocationMarker>, capacity: nat, m: LocationMarker): (r: seq<LocationMarker>)
    ensures |r| == if |s| < capacity then |s| + 1 else |s|
    ensures EvictionIndex(s, capacity, m).None? && |s| >= capacity ==> r == s
    ensures |s| < capacity || EvictionIndex(s, capacity, m).Some? ==> r[|r| - 1] == m
  {
    match EvictionIndex(s, capacity, m)
    case Some(i) => s[..i] + s[i + 1..] + [m]
    case None => if |s| < capacity then s + [m] else s
  }

  /** Below capacity the marker is appended whatever its name, and the list grows by one. */
  lemma ReplaceBelowCapacity(s: seq<LocationMarker>, capacity: nat, m: LocationMarker)
    requires |s| < capacity
    ensures |Replace(s, capacity, m)| == |s| + 1
    ensures Replace(s, capacity, m)[..|s|] == s && Replace(s, capacity, m)[|s|] == m
  {
  }

  /** At or above capacity the length never changes: one out and one in, or nothing. */
  lemma ReplaceAtCapacityKeepsLength(s: seq<LocationMarker>, capacity: nat, m: LocationMarker)
    requires |s| >= capacity
    ensures |Replace(s, capacity, m)| == |s|
  {
  }

  /** A list within capacity stays within it. */
  lemma ReplaceWithinCapacity(s: seq<LocationMarker>, capacity: nat, m: LocationMarker)
    requires |s| <= capacity
    ensures |Replace(s, capacity, m)| <= capacity
  {
  }

  /** Several calls in a row, one incoming marker after another. */
  function ReplaceAll(s: seq<LocationMarker>, capacity: nat, incoming: seq<LocationMarker>): seq<LocationMarker>
    decreases incoming
  {
    if incoming == [] then s else ReplaceAll(Replace(s, capacity, incoming[0]), capacity, incoming[1..])
  }

  /** For any sequence of calls, a list that starts within capacity never exceeds it. */
  lemma {:induction false} ReplaceAllWithinCapacity(s: seq<LocationMarker>, capacity: nat, incoming: seq<LocationMarker>)
    requires |s| <= capacity
    ensures |ReplaceAll(s, capacity, incoming)| <= capacity
    decreases incoming
  {
    if incoming != [] {
      ReplaceWithinCapacity(s, capacity, incoming[0]);
      ReplaceAllWithinCapacity(Replace(s, capacity, incoming[0]), capacity, incoming[1..]);
    }
  }

  /** For any sequence of calls, a list that has reached capacity keeps its length. */
  lemma {:induction false} ReplaceAllAtCapacityKeepsLength(s: seq<LocationMarker>, capacity: nat, incoming: seq<LocationMarker>)
    requires |s| >= capacity
    ensures |ReplaceAll(s, capacity, incoming)| == |s|
    decreases incoming
  {
    if incoming != [] {
      ReplaceAtCapacityKeepsLength(s, capacity, incoming[0]);
      ReplaceAllAtCapacityKeepsLength(Replace(s, capacity, incoming[0]), capacity, incoming[1..]);
    }
  }

  /** Removing the element at i and appending m: the shape of the list after an eviction. */
  lemma RemoveAndAppend<T>(s: seq<T>, i: nat, m: T)
    requires i < |s|
    ensures |s[..i] + s[i + 1..] + [m]| == |s| && (s[..i] + s[i + 1..] + [m])[|s| - 1] == m
    ensures forall j :: 0 <= j < i ==> (s[..i] + s[i + 1..] + [m])[j] == s[j]
    ensures forall j :: i < j < |s| ==> (s[..i] + s[i + 1..] + [m])[j - 1] == s[j]
    ensures multiset(s[..i] + s[i + 1..] + [m]) == multiset(s) - multiset{s[i]} + multiset{m}
  {
    assert s == s[..i] + [s[i]] + s[i + 1..];
    assert multiset(s) == multiset(s[..i]) + multiset{s[i]} + multiset(s[i + 1..]);
    assert multiset(s[..i] + s[i + 1..] + [m]) == multiset(s[..i]) + multiset(s[i + 1..]) + multiset{m};
  }

  /**
   * At capacity with a name match, exactly the lowest-index match is replaced:
   * the records before it keep their places, the records after it move up by
   * one in the same order, the incoming marker is last, and as a bag the list
   * lost the evicted record and gained the marker.
   */
  lemma ReplaceEvictsFirstMatch(s: seq<LocationMarker>, capacity: nat, m: LocationMarker, i: nat)
    requires |s| >= capacity && FirstMatch(s, m.node.name) == Some(i)
    ensures |Replace(s, capacity, m)| == |s| && Replace(s, capacity, m)[|s| - 1] == m
    ensures forall j :: 0 <= j < i ==> Replace(s, capacity, m)[j] == s[j]
    ensures forall j :: i < j < |s| ==> Replace(s, capacity, m)[j - 1] == s[j]
    ensures multiset(Replace(s, capacity, m)) == multiset(s) - multiset{s[i]} + multiset{m}
  {
    assert Replace(s, capacity, m) == s[..i] + s[i + 1..] + [m];
    RemoveAndAppend(s, i, m);
  }

  /** A later record that shares the incoming name is not touched; it only moves up by one. */
  lemma ReplaceKeepsLaterNamesakes(s: seq<LocationMarker>, capacity: nat, m: LocationMarker, j: nat)
    requires |s| >= capacity && j < |s| && s[j].node.name == m.node.name
    requires exists k :: 0 <= k < j && s[k].node.name == m.node.name
    ensures Replace(s, capacity, m)[j - 1] == s[j]
  {
    var i := FirstMatch(s, m.node.name).value;
    ReplaceEvictsFirstMatch(s, capacity, m, i);
  }

  /** At capacity with no name match, the list is unchanged and the marker dropped. */
  lemma ReplaceWithoutMatchDrops(s: seq<LocationMarker>, capacity: nat, m: LocationMarker)
    requires |s| >= capacity
    requires forall j :: 0 <= j < |s| ==> s[j].node.name != m.node.name
    ensures Replace(s, capacity, m) == s
  {
  }

  /**
   * When the oldest record shares the incoming name (as it does for a
   * default-named marker and a seeded list), replacement at capacity evicts
   * the oldest record, provided it owns an anchor (see SeededListCannotEvict).
   */
  lemma ReplaceEvictsOldestNamesake(s: seq<LocationMarker>, capacity: nat, m: LocationMarker)
    requires |s| >= capacity && |s| > 0 && s[0].node.name == m.node.name
    ensures Replace(s, capacity, m) == s[1..] + [m]
  {
  }

  /**
   * A list just seeded to capacity cannot go through an eviction: the first
   * namesake of a default-named marker is the oldest record, which has no
   * anchor node yet, so the source would throw a NullPointerException at the
   * anchor detach instead of replacing it.
   */
  lemma SeededListCannotEvict(views: seq<LoadedView>, m: LocationMarker)
    requires views != [] && m.node.name == DefaultNodeName
    ensures EvictionIndex(SeedAll(views), |views|, m) == Some(0)
    ensures !CanReplace(SeedAll(views), |views|, m)
  {
    var s := SeedAll(views);
    assert s[0] == SeedMarker(views[0]);
  }
}
