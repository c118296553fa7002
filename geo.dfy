/** The geographic values the application passes around: positions,
    GeoJSON geometries and the visualization items (a STAC item joined with
    its plume metadata). Only the fields the modelled code reads are kept. */
module Geo {
  import opened Wrappers

  /** A `[lng, lat]` pair. */
  datatype Position = Position(lng: real, lat: real)

  datatype Geometry =
    | Point(at: Position)
    | LineString(path: seq<Position>)
    | Polygon(rings: seq<seq<Position>>)
    | OtherGeometry(kind: string)

  /** A visualization item: a STAC item (`id`, `collection`, `bbox`,
      `properties.datetime`, `geometry`) plus the plume fields the map reads
      (`polygonGeometry`, `plumeProperties.location`). Datetimes are
      milliseconds since the epoch. */
  datatype VizItem = VizItem(
    id: string,
    collection: string,
    bbox: Option<seq<real>>,
    datetime: int,
    geometry: Option<Geometry>,
    polygonGeometry: Option<Geometry>,
    location: Option<string>)
}
