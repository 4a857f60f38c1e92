/**
 * Facilities as the map screen builds them: each GeoJSON feature becomes a `hospitalData`
 * record with defaults for missing fields, placed at the feature's point with its
 * `[lng, lat]` pair turned round into `[lat, lng]`.
 */
module Facilities {
  import opened Wrappers
  import opened Js

  /** A `[lat, lng]` pair as the map screen passes it around. */
  datatype LatLng = LatLng(lat: real, lng: real)

  /** `feature.properties`; every property may be absent. `type` is spelt `kind` here. */
  datatype Properties = Properties(
    name: Option<string>,
    address: Option<string>,
    phone: Option<string>,
    contact: Option<string>,
    kind: Option<string>,
    category: Option<string>,
    services: Option<string>)

  /** A GeoJSON point feature: `geometry.coordinates` and a possibly absent `properties`. */
  datatype Feature = Feature(coordinates: seq<real>, properties: Option<Properties>)

  /** `hospitalData`: what a marker click hands to the session. */
  datatype Facility = Facility(
    name: string,
    address: string,
    phone: Option<string>,
    kind: Option<string>,
    services: Option<string>,
    coordinates: Option<LatLng>)

  const DefaultName: string := "Healthcare Facility"
  const DefaultAddress: string := "Medical facility"

  /** `feature.properties?.x` reads every property as absent when `properties` is absent. */
  const NoProperties: Properties := Properties(None, None, None, None, None, None, None)

  function PropertiesOf(f: Feature): Properties
  {
    if f.properties.Some? then f.properties.value else NoProperties
  }

  /** `const [lng, lat] = feature.geometry.coordinates`; the marker goes at `[lat, lng]`. */
  function MarkerPosition(f: Feature): LatLng
    requires |f.coordinates| >= 2
  {
    LatLng(f.coordinates[1], f.coordinates[0])
  }

  /** The GeoJSON order of a position, longitude first. */
  function GeoJsonPosition(p: LatLng): seq<real>
  {
    [p.lng, p.lat]
  }

  /** The `hospitalData` record of one feature. */
  function FacilityFromFeature(f: Feature): (h: Facility)
    requires |f.coordinates| >= 2
    ensures h.name != "" && h.address != ""
    ensures h.coordinates.Some?
  {
    var p := PropertiesOf(f);
    Facility(
      OrDefault(p.name, DefaultName),
      OrDefault(p.address, DefaultAddress),
      OrElse(p.phone, p.contact),
      OrElse(p.kind, p.category),
      p.services,
      Some(MarkerPosition(f)))
  }

  /** Where each field of the record comes from. */
  lemma FacilityFields(f: Feature)
    requires |f.coordinates| >= 2
    ensures var h, p := FacilityFromFeature(f), PropertiesOf(f);
      && (h.name == if Truthy(p.name) then p.name.value else DefaultName)
      && (h.address == if Truthy(p.address) then p.address.value else DefaultAddress)
      && (h.phone == if Truthy(p.phone) then p.phone else p.contact)
      && (h.kind == if Truthy(p.kind) then p.kind else p.category)
      && h.services == p.services
  {
  }

  /** A feature without properties gets the default name and address and nothing else. */
  lemma FacilityWithoutProperties(f: Feature)
    requires |f.coordinates| >= 2 && f.properties.None?
    ensures FacilityFromFeature(f) ==
      Facility(DefaultName, DefaultAddress, None, None, None, Some(MarkerPosition(f)))
  {
  }

  /**
   * The record and the marker click agree on the position, and turning it back into
   * GeoJSON order gives the feature's own `[lng, lat]`; any further coordinate is dropped.
   */
  lemma PositionRoundTrip(f: Feature)
    requires |f.coordinates| >= 2
    ensures FacilityFromFeature(f).coordinates == Some(MarkerPosition(f))
    ensures GeoJsonPosition(MarkerPosition(f)) == f.coordinates[..2]
  {
  }

  /** The fixed marker for the SehatPlus head office and the record its button passes. */
  const HeadquartersPosition: LatLng := LatLng(33.6844, 73.0479)
  const Headquarters: Facility :=
    Facility("SehatPlus HQ", "G-8, Islamabad", Some("+92-51-1234567"), Some("Healthcare Technology"), None, None)
}
