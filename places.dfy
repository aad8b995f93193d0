/**
 * The records the places service hands to the restaurant list, reduced to
 * the fields the list's decision logic reads (app/components/RestaurantList.tsx).
 */
module Places {
  import opened Wrappers

  /** What calling `opening_hours.isOpen()` does: the method may be missing,
      may return a boolean or `undefined`, or may throw. */
  datatype IsOpenCall = NoIsOpen | Returns(result: Option<bool>) | Throws

  /** `opening_hours`: the `isOpen()` method and the deprecated `open_now` flag. */
  datatype OpeningHours = OpeningHours(isOpen: IsOpenCall, openNow: Option<bool>)

  /** A nearby-search result. `lat`/`lng` are `geometry?.location?.lat()` and
      `.lng()`, absent when the geometry is missing. */
  datatype PlaceResult = PlaceResult(
    placeId: string,
    name: string,
    lat: Option<real>,
    lng: Option<real>,
    openingHours: Option<OpeningHours>)

  /** A review; only its `language` tag takes part in any decision. */
  datatype Review = Review(authorName: string, text: string, language: Option<string>)

  /** A `getDetails` reply, limited to the requested fields that the list reads. */
  datatype PlaceDetails = PlaceDetails(
    phone: Option<string>,
    website: Option<string>,
    openingHours: Option<OpeningHours>,
    reviews: Option<seq<Review>>)

  /** Status of a places-service reply; only `OK` is told apart from the rest. */
  datatype ServiceStatus = Ok | NotOk(code: string)
}
