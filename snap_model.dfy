/** The `Snap` schema of models/snap.js: the stored document and the checks its
    validators make on every `save`. */
module SnapModel {
  import opened Common
  import opened UserModel

  /** `location: { lat, lng }`; the coordinates are opaque numbers here. */
  datatype Location = Location(lat: Option<real>, lng: Option<real>)

  /** A snap document, with the schema's field names. */
  datatype Snap = Snap(
    title: Option<string>,
    description: Option<string>,
    imageUrl: Option<string>,
    address: Option<string>,
    location: Location,
    creator: Option<UserId>)

  /** The validators: four required strings, both coordinates, and a creator id. */
  predicate ValidSnap(s: Snap)
  {
    && Present(s.title)
    && Present(s.description)
    && Present(s.imageUrl)
    && Present(s.address)
    && s.location.lat.Some? && s.location.lng.Some?
    && Present(s.creator)
  }
}
