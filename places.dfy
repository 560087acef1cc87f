/**
 * The record shapes of the places-search service as Prospecting.py reads them.
 * A dictionary key the code reads with `.get` is an `Option`: `None` when the
 * key is absent. Numeric fields that are only ever written to CSV (rating,
 * rating count) are carried as the text the CSV writer would produce.
 */
module Places {
  import opened Wrappers

  /** The `opening_hours` object of a search result. */
  datatype OpeningHours = OpeningHours(weekdayText: Option<seq<string>>)

  /** One search result ("business"). */
  datatype Business = Business(
    placeId: Option<string>,
    name: Option<string>,
    formattedAddress: Option<string>,
    rating: Option<string>,
    userRatingsTotal: Option<string>,
    openingHours: Option<OpeningHours>,
    website: Option<string>)

  /** One review of a place-details answer; `time` is a Unix timestamp. */
  datatype Review = Review(time: int, text: Option<string>)

  /** The `result` object of a place-details answer, as far as the program reads it. */
  datatype PlaceDetails = PlaceDetails(reviews: Option<seq<Review>>)
}
