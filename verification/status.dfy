/** `check_clinician_status`: a clinician is in zone only when the payload is
    accepted and its location lies in its zone. */
module Status {
  import opened Options
  import opened PyJson
  import opened Payload
  import opened Geometry

  /** The answer of the status check for one response. */
  function ClinicianInZone<Shape>(lib: Shapely<Shape>, response: Response): (r: bool)
    ensures FetchClinicianData(response).None? ==> !r
    ensures r ==> response.Received? && WellShaped(response.body)
  {
    match FetchClinicianData(response)
    case None => false
    case Some(data) => PointInPolygon(lib, data.location.0, data.location.1, data.zone)
  }

  /** On an accepted payload the point handed to the library is the payload's
      own `[lon, lat]` pair, and the zone is the payload's ring list. */
  lemma AcceptedPayloadIsTested<Shape>(lib: Shapely<Shape>, response: Response)
    requires response.Received? && WellShaped(response.body)
    ensures
      var features := Field(response.body, "features").value.items;
      var point := GeometryCoordinates(features[0], "Point").value;
      var zone := GeometryCoordinates(features[1], "Polygon").value;
      && (ClinicianInZone(lib, response) ==> lib.point(At(point, 0).value, At(point, 1).value).Some?)
      && ClinicianInZone(lib, response) == PointInPolygon(lib, At(point, 1).value, At(point, 0).value, zone)
  {
  }

  /** The status check: a failed fetch is out of zone, for safety. */
  method CheckClinicianStatus<Shape>(lib: Shapely<Shape>, response: Response) returns (inZone: bool)
    ensures inZone == ClinicianInZone(lib, response)
  {
    var data := FetchClinicianData(response);
    if data.None? {
      return false;
    }
    inZone := IsPointInPolygon(lib, data.value.location.0, data.value.location.1, data.value.zone);
  }
}
