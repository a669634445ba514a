/**
 * The immutable point-of-interest record of the sample app (model/Marker.java).
 * A Marker is a value: its four fields are final and are only ever read back.
 */
module Markers {

  /**
   * A Java `double` coordinate, kept as the raw bits of the IEEE-754 binary64
   * value. The core stores and returns coordinates and never computes with them,
   * so nothing but equality is available on them.
   */
  datatype Coordinate = Coordinate(bits: bv64)

  /** The category of a point of interest; the sample data uses these two. */
  datatype LocationType = CoffeeShop | VinBuilding

  /** The fields in their declaration order: longitude first, then latitude. */
  datatype Marker = Marker(longitude: Coordinate, latitude: Coordinate, title: string, locationType: LocationType)
  {
    /** getLongitude */
    function Longitude(): Coordinate { longitude }

    /** getLatitude */
    function Latitude(): Coordinate { latitude }

    /** getTitle */
    function Title(): string { title }

    /** getLocationType */
    function LocationTypeOf(): LocationType { locationType }
  }

  /**
   * The Java constructor, which takes latitude FIRST and longitude second,
   * the opposite of the order in which the fields are declared. Every getter
   * gives back the argument of the same name.
   */
  function NewMarker(latitude: Coordinate, longitude: Coordinate, title: string, locationType: LocationType): (m: Marker)
    ensures m.Latitude() == latitude
    ensures m.Longitude() == longitude
    ensures m.Title() == title
    ensures m.LocationTypeOf() == locationType
  {
    Marker(longitude, latitude, title, locationType)
  }

  /**
   * A marker holds nothing but what its four getters return: rebuilding it from
   * them (latitude first) gives the same marker, so no state is hidden or mutable.
   */
  lemma MarkerIsItsGetters(m: Marker)
    ensures NewMarker(m.Latitude(), m.Longitude(), m.Title(), m.LocationTypeOf()) == m
  {
  }
}
