# Places API Prospecting: a verified model of the lattice, deduplication and CSV logic

The repository is two Python scripts.

- `Grid.py` lays a square of a given side around a centre and covers it with a lattice of search
  points, one per circle of a given radius. It writes the points to a CSV file.
- `Prospecting.py` reads a file of that format as search locations and searches around each location.
  It keeps the first business returned for each place id, fetches each business's reviews in two
  orders, and writes one CSV row per business.

This Dafny project models the parts that compute rather than talk to the outside world:

- `grid.dfy` (module `Grid`) covers `generate_full_coverage_grid`.
  - Arithmetic is over exact reals.
  - `cos(radians(center_lat))` is a parameter `cosLat` in (0, 1].
  - `np.arange(start, stop, step)` is the list of `start + i*step` for every natural `i` whose
    point lies before `stop` in the direction of `step`. A zero step is the error numpy raises.
- `dedup.dfy` (module `Dedup`) covers `getAllBusinesses`.
  - It is an imperative method with the source's nested loops, `seen` set and `unique` list.
  - It is proved against a reference definition, `FirstOccurrences`: the businesses standing at
    the first occurrence of their place id.
  - The search callback is replaced by the sequence of result lists it returns.
- `reviews.dfy` (module `Reviews`) covers the review ordering of `fetch_reviews`.
  - Python's `sorted(..., reverse=True)` is stable. It is modelled as a stable insertion sort.
  - The sort is proved to be the only list that is newest first and keeps equal timestamps in
    input order.
- `business_csv.dfy` (module `BusinessCsv`) covers the rows `save_to_csv` hands to the CSV writer.
  - The `"; "` joins have a `Split` inverse, and the round trip is proved.
- `coordinates.dfy` (module `Coordinates`) has three parts:
  - the rows `write_coordinates_to_csv` writes;
  - `read_coordinates_from_csv` as an imperative loop over in-memory rows, including its two
    failure cases;
  - the proof that reading back a file written for the grid yields one "lat, lon" string per lattice point, in
    row-major order.
- `places.dfy` holds the record shapes the code reads with `.get`. An absent key is `None`.
- `wrappers.dfy` holds `Option` and `Result`.

For the New York parameters of `main` in Grid.py (centre latitude 40.712776, 50 km side, 2 km
radius) the code produces 14 latitude rows, the last at 40.712776 + 27/111, half a spacing beyond
the square's upper edge; `Grid.NewYorkLatitudeRows` proves this. The code validates none of its
inputs. A zero radius makes numpy raise; negative values are accepted, and the model accepts them
too.

## Model

| member | source | states |
|---|---|---|
| Grid.Arange | Grid.py:32-33 | `np.arange`: element `i` is `start + i*step`, and index `i` is in range exactly when that point lies before `stop` in the direction of the step |
| Grid.LatAdjustment | Grid.py:20-23 | the latitude half-extent in degrees converts back, at 111 km per degree, to half the side; it is positive for a positive side |
| Grid.LatSpacing | Grid.py:27-28 | the latitude step in degrees converts back, at 111 km per degree, to the circle diameter; it is positive for a positive radius |
| Grid.LonAdjustment | Grid.py:23-24 | the longitude half-extent is the latitude half-extent divided by `cosLat`, and is at least that half-extent for a non-negative side |
| Grid.LonSpacing | Grid.py:27-29 | the longitude spacing is the latitude spacing divided by `cosLat`, and is at least that spacing for a non-negative radius |
| Grid.Axis | Grid.py:32-33 | an axis is the `arange` from `center - adj` to `center + adj + spacing`, its point `i` being `center - adj + i*spacing` |
| Grid.LatPoints | Grid.py:32 | latitude row `i` is `center_lat - lat_adjustment + i*lat_spacing`; for a non-negative side and positive radius there are `ceil(side/diameter) + 1` rows |
| Grid.LonPoints | Grid.py:33 | longitude column `i` is the latitude construction stretched by `1/cosLat` about `center_lon`; for a non-negative side and positive radius there are as many columns as rows, `ceil(side/diameter) + 1` |
| Grid.Row | Grid.py:35 | the inner loop of the comprehension: one pair per longitude, in order, with the given latitude |
| Grid.Product | Grid.py:35 | the comprehension has `|lats| * |lons|` elements |
| Grid.ProductAt | Grid.py:35 | element `k` of the comprehension is `(lats[k / n], lons[k % n])` with `n = |lons|`: latitude outer, longitude inner |
| Grid.GenerateFullCoverageGrid | Grid.py:6-37 | the result is an error exactly when the radius is zero (a zero `arange` step); otherwise it has `|lat_points| * |lon_points|` points |
| Grid.GridRowMajor | Grid.py:32-35 | point `k` of the grid pairs latitude row `k / n` with longitude column `k % n` |
| Grid.AxisAscending | Grid.py:32-33 | an axis with positive spacing starts exactly at `center - adj`, climbs by exactly `spacing`, is strictly ascending and stays below the stop `center + adj + spacing` |
| Grid.AxisReachesUpperEdge | Grid.py:32-33 | for `adj >= 0` an axis has `ceil(2*adj/spacing) + 1` points, at least two when `adj > 0`, and its last point lies in `[center + adj, center + adj + spacing)`: the upper edge is always reached |
| Grid.AxisCovers | Grid.py:27-33 | along one axis every coordinate between the square's edges is within half a spacing (one radius) of an axis point |
| Grid.AxisScaleInvariant | Grid.py:23-33 | dividing half-extent and spacing by the same positive factor, as the longitude axis does with `cosLat`, leaves the number of points unchanged |
| Grid.PositiveInputsGiveSquareGrid | Grid.py:20-35 | for a positive side and radius all adjustments and spacings are positive, the longitude ones are at least the latitude ones, both axes have `ceil(side/diameter) + 1 >= 2` points, and the grid is a non-empty `n`-by-`n` lattice of at least 4 points |
| Grid.NewYorkLatitudeRows | Grid.py:60-68 | the New York parameters give 14 latitude rows, from `40.712776 - 25/111` to `40.712776 + 27/111`, the last half a spacing above the square's upper edge |
| Dedup.Flatten | Prospecting.py:115-117 | a business occurs in the walk over all result lists exactly when it occurs in one of them |
| Dedup.FirstOccurrenceOfLast | Prospecting.py:118-119 | an appended business is the first with its place id exactly when its id has not been seen |
| Dedup.FirstOccurrencesAppend | Prospecting.py:117-121 | one more business extends the kept list by it exactly when its id is new |
| Dedup.FirstOccurrencesIds | Prospecting.py:115-121 | the kept businesses have exactly the place ids of the input: no id lost, none invented |
| Dedup.FirstOccurrencesDistinct | Prospecting.py:118-121 | no two kept businesses share a place id (`None` counts as one id) |
| Dedup.FirstOccurrencesCount | Prospecting.py:112-121 | one business is kept per distinct place id, so never more than the input holds |
| Dedup.DistinctIsFixed | Prospecting.py:115-121 | a list whose ids are already distinct is kept unchanged |
| Dedup.FirstOccurrencesIdempotent | Prospecting.py:115-121 | deduplicating the result again changes nothing |
| Dedup.FirstOccurrencesAreFirst | Prospecting.py:115-121 | every kept business is the first of its id in the input, and every first occurrence is kept |
| Dedup.FirstOccurrencesSubsequence | Prospecting.py:115-121 | the kept list is a subsequence of the input: its `k`-th business sits at the `k`-th of a strictly increasing list of positions |
| Dedup.GetAllBusinesses | Prospecting.py:111-122 | the nested loops return exactly the first occurrences of the flattened results, with distinct ids, every id of every result list present, and no more businesses than the input; the loop invariant keeps `seen` equal to the ids of `unique` |
| Reviews.WithTimeMembers | Prospecting.py:100-101 | selecting reviews by timestamp keeps exactly the reviews with that timestamp |
| Reviews.InsertPermutes | Prospecting.py:100-101 | inserting one review keeps every review and adds it |
| Reviews.InsertOrdered | Prospecting.py:100-101 | inserting into a newest-first list keeps it newest first |
| Reviews.InsertStable | Prospecting.py:100-101 | an inserted review goes ahead of every review with its timestamp |
| Reviews.SortNewestFirst | Prospecting.py:100-101 | the sorted reviews are a permutation of the input with non-increasing timestamps |
| Reviews.SortStable | Prospecting.py:100-101 | reviews with equal timestamps keep their input order |
| Reviews.StableOrderUnique | Prospecting.py:100-101 | two newest-first lists that agree on the order of every timestamp class are equal |
| Reviews.SortIsPythonSorted | Prospecting.py:100-101 | any newest-first list keeping equal timestamps in input order is the modelled sort, so the model is the one order a stable descending sort yields |
| Reviews.OrderReviews | Prospecting.py:99-104 | a missing "reviews" key gives no reviews; an order other than "recent" leaves the reviews as received; "recent" gives a newest-first, stable permutation of them |
| Reviews.FetchReviews | Prospecting.py:86-108 | the returned details carry a "reviews" entry exactly when the request succeeded, and it holds the ordered reviews |
| BusinessCsv.Join | Prospecting.py:142-145 | when no item holds a semicolon, the `"; "`-joined text holds one exactly when there are at least two items |
| BusinessCsv.WeekdayText | Prospecting.py:142 | a missing `opening_hours` or `weekday_text` gives no items; otherwise the weekday texts as given |
| BusinessCsv.OpeningHoursCell | Prospecting.py:142-147 | the opening-hours cell is empty without weekday texts, and otherwise, for texts without semicolons, splits back into exactly them |
| BusinessCsv.JoinSplit | Prospecting.py:142-145 | a `"; "`-joined cell of at least one item, no item holding a semicolon, splits back into exactly its items |
| BusinessCsv.ReviewTexts | Prospecting.py:144-145 | one text per review, in order, "" where a review has no text |
| BusinessCsv.BusinessRow | Prospecting.py:134-147 | a business row has one cell per header; place id and name are written as read (absent is empty); address, rating, rating count and website are written as given, or "N/A" when missing; the opening-hours cell is the `"; "`-join of the weekday texts, and the two review cells the `"; "`-joins of the review texts of each `fetch_reviews` answer |
| BusinessCsv.WrittenRow | Prospecting.py:134-147 | the row of one business, with both review fetches asked about its place id, is as wide as the header and starts with its place id |
| BusinessCsv.CsvRows | Prospecting.py:125-147 | the written rows are the 9-column header and then one equally wide row per business, in order: row `i + 1` is the `BusinessRow` of business `i` with both `fetch_reviews` answers for its place id, so its "N/A" defaults and `"; "` joins hold of the file |
| BusinessCsv.ReviewCells | Prospecting.py:136-147 | a failed details request leaves both review cells empty; otherwise, for reviews without semicolons, the first review cell splits back into the texts in received order and the second into the texts newest first |
| BusinessCsv.PlaceIdColumnDistinct | Prospecting.py:111-147 | for deduplicated businesses, none with the empty string as place id, no place-id cell repeats in the written rows; the one business without a place id, written with an empty cell, is included |
| Coordinates.Location | Prospecting.py:157-159 | the location string is the first cell, then ", ", then the second cell, each at a known position in the string |
| Coordinates.Locations | Prospecting.py:155-160 | from a given row on: one "first cell, second cell" string per row when every row has two cells, otherwise the first row that is too short |
| Coordinates.ReadCoordinates | Prospecting.py:150-161 | an empty file fails; a data row with fewer than two cells fails at the first such row; otherwise the header is skipped and row `i + 1` gives string `i`, "row[0], row[1]" |
| Coordinates.ReadCoordinatesFromCsv | Prospecting.py:150-161 | the loop returns exactly what `ReadCoordinates` specifies |
| Coordinates.CoordinateRows | Grid.py:40-57 | the written file is the header "Latitude", "Longitude" followed by one (latitude, longitude) row per point, in order |
| Coordinates.WrittenMeshReadsBack | Prospecting.py:150-161 | reading back the file written for any point list succeeds, with one string per point in order, latitude first |
| Coordinates.GridFileReadsBack | Grid.py:35-55 | the locations read from the written grid number `|lat_points| * |lon_points|`, and location `k` is latitude row `k / n` then longitude column `k % n` |

## Left out

- HTTP requests, `raise_for_status`, `response.json()`, the pagination-token loops and `time.sleep`
  in `search_Query` and `search_plumberType` are not modelled. They talk to a remote service.
- `fetch_reviews` is modelled from the point where the answer is in hand. The answer is a
  parameter, `None` when the request raised. The two calls per business in `save_to_csv` are
  assumed to receive the same answer (the same `lookup`).
- Exceptions other than the request failure inside `fetch_reviews` are not modelled. Examples are
  a JSON decoding error, or a review without "time" that makes the sort raise `KeyError`. Every
  modelled review has a timestamp.
- JSON `null` values are not modelled, and neither is an `opening_hours` entry that is present but
  not an object. A key is either absent (`None`) or holds a value of the expected shape.
- Ratings and rating counts are carried as the text the CSV writer would print for them. The
  writer's quoting and the parsing of the file back into cells are not modelled. A file is its
  list of rows.
- Opening, writing and reading files, `print`, both `main` functions and the `api_key` import are
  configuration and I/O and are not modelled.
- Grid.GenerateFullCoverageGrid: floating point, `math.cos` and `math.radians` are not modelled.
  The cosine is a parameter in (0, 1], so the pole is excluded. The model is exact `arange`
  without rounding drift, so the row counts of IEEE arithmetic at the boundary are not
  reproduced.
- Grid.AxisCovers: states coverage along one axis only. The docstring's claim of full coverage
  of the square by circles does not hold in two dimensions. With the spacing equal to the
  diameter, the centre of a lattice cell is about 1.41 radii from every lattice point. Disk
  coverage is not stated.
- The comment in `read_coordinates_from_csv` calls column 0 the longitude. The grid file has
  latitude in column 0, and the model does what the code does: the first cell comes first.
- BusinessCsv.JoinSplit: the round trip holds only for a non-empty list whose items contain no
  semicolon. An empty list and a list of one empty item both join to "".
