/**
  The clinician-status payload: a GeoJSON-like feature collection whose first
  feature is the clinician's location (a Point) and whose second is the safety
  zone (a Polygon). Retrieving it is network I/O and is an input here.
 */
module Payload {
  import opened Options
  import opened PyJson

  /** What the status request produced: a decoded body, or `Failed` when the
      request raised, the status was not 2xx, or the body was not JSON. */
  datatype Response = Failed | Received(body: Json)

  /** The accepted payload: the location as `(lat, lon)` and the zone's rings as
      the payload gave them. */
  datatype ClinicianData = ClinicianData(location: (Json, Json), zone: Json)

  /** `feature["geometry"]["type"]`, if both lookups succeed. */
  function GeometryType(feature: Json): Option<Json>
  {
    var geometry :- Field(feature, "geometry");
    Field(geometry, "type")
  }

  /** The coordinates of a feature whose geometry has type `kind`, if it has
      a geometry of that type with coordinates. */
  function GeometryCoordinates(feature: Json, kind: string): Option<Json>
  {
    var geometry :- Field(feature, "geometry");
    var typ :- Field(geometry, "type");
    if typ == JString(kind) then Field(geometry, "coordinates") else None
  }

  /** The payloads the monitor accepts: a dict whose "features" is a list of at
      least two features, the first a Point whose coordinates have two
      components, the second a Polygon with coordinates. */
  predicate WellShaped(data: Json)
  {
    && data.JObject?
    && Field(data, "features").Some?
    && var features := Field(data, "features").value;
    && features.JArray?
    && |features.items| >= 2
    && GeometryCoordinates(features.items[0], "Point").Some?
    && PairLike(GeometryCoordinates(features.items[0], "Point").value)
    && GeometryCoordinates(features.items[1], "Polygon").Some?
  }

  /** The validation of `fetch_clinician_data`: each check that fails, and each
      lookup that raises, gives `None`. */
  function FetchClinicianData(response: Response): (r: Option<ClinicianData>)
    ensures r.Some? <==> response.Received? && WellShaped(response.body)
    ensures r.Some? ==>
      var features := Field(response.body, "features").value.items;
      var point := GeometryCoordinates(features[0], "Point").value;
      && r.value.location == (At(point, 1).value, At(point, 0).value)
      && r.value.zone == GeometryCoordinates(features[1], "Polygon").value
  {
    match response
    case Failed => None
    case Received(data) =>
      var features :- FieldOr(data, "features", JArray([]));
      var count :- Len(features);
      if count < 2 then None
      else
        var locFeature :- At(features, 0);
        var locGeometry :- Field(locFeature, "geometry");
        var locType :- Field(locGeometry, "type");
        if locType != JString("Point") then None
        else
          var coords :- Field(locGeometry, "coordinates");
          var lat :- At(coords, 1);
          var lon :- At(coords, 0);
          var zoneFeature :- At(features, 1);
          var zoneGeometry :- Field(zoneFeature, "geometry");
          var zoneType :- Field(zoneGeometry, "type");
          if zoneType != JString("Polygon") then None
          else
            var zoneCoords :- Field(zoneGeometry, "coordinates");
            Some(ClinicianData((lat, lon), zoneCoords))
  }

  /** The four rejections the validation is written for: a failed request,
      fewer than two features, a first feature that is not a Point, a second
      feature that is not a Polygon. */
  lemma RejectedPayloads(response: Response, features: seq<Json>)
    requires response.Received? ==> Field(response.body, "features") == Some(JArray(features))
    requires
      || response.Failed?
      || |features| < 2
      || GeometryType(features[0]) != Some(JString("Point"))
      || GeometryType(features[1]) != Some(JString("Polygon"))
    ensures FetchClinicianData(response).None?
  {
  }
}
