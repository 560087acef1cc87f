/**
 * The rows `save_to_csv` of Prospecting.py writes: one header row and one row
 * per business. Opening the file and the CSV writer are not modelled; the
 * rows are the lists of cell texts handed to the writer. The place-details
 * request is a parameter `lookup` from a place id to the answer (`None` when
 * the request raised).
 */
module BusinessCsv {
  import opened Wrappers
  import opened Places
  import opened Reviews
  import opened Dedup

  /** The separator of multi-valued cells. */
  const Separator: string := "; "

  /** The header row. */
  const Headers: seq<string> := ["place_id", "name", "formatted_address", "rating",
    "user_ratings_total", "opening_hours", "website", "reviews", "recent_reviews"]

  /**
   * `"; ".join(items)`. When no item holds a semicolon, the joined text holds
   * one exactly when there are at least two items.
   */
  function Join(items: seq<string>): (r: string)
    ensures (forall x :: x in items ==> ';' !in x) ==> (';' in r <==> |items| >= 2)
  {
    if items == [] then ""
    else if |items| == 1 then items[0]
    else items[0] + Separator + Join(items[1..])
  }

  /** Cuts `s` at every "; ", the text before the first cut being appended to `current`. */
  function SplitFrom(s: string, current: string): seq<string>
    decreases |s|
  {
    if s == [] then [current]
    else if |s| >= 2 && s[0] == ';' && s[1] == ' ' then [current] + SplitFrom(s[2..], "")
    else SplitFrom(s[1..], current + [s[0]])
  }

  /** Reading a multi-valued cell back: the pieces between the separators. */
  function Split(s: string): seq<string> {
    SplitFrom(s, "")
  }

  /** Text without a semicolon is copied into the current piece unchanged. */
  lemma {:induction false} SplitFromPlain(x: string, rest: string, current: string)
    requires ';' !in x
    ensures SplitFrom(x + rest, current) == SplitFrom(rest, current + x)
  {
    if x == [] {
      assert x + rest == rest && current + x == current;
    } else {
      assert (x + rest)[0] == x[0] && (x + rest)[1..] == x[1..] + rest;
      assert x[0] in x;
      SplitFromPlain(x[1..], rest, current + [x[0]]);
      assert current + [x[0]] + x[1..] == current + x;
    }
  }

  /**
   * A joined cell splits back into its items, provided there is at least one
   * item and no item contains a semicolon.
   */
  lemma {:induction false} JoinSplit(items: seq<string>)
    requires items != []
    requires forall x :: x in items ==> ';' !in x
    ensures Split(Join(items)) == items
  {
    if |items| == 1 {
      SplitFromPlain(items[0], "", "");
      assert items[0] + "" == items[0] && "" + items[0] == items[0];
    } else {
      var rest := Join(items[1..]);
      assert Join(items) == items[0] + (Separator + rest);
      SplitFromPlain(items[0], Separator + rest, "");
      assert "" + items[0] == items[0];
      var s := Separator + rest;
      assert |s| >= 2 && s[0] == ';' && s[1] == ' ' && s[2..] == rest;
      assert SplitFrom(s, items[0]) == [items[0]] + SplitFrom(rest, "");
      JoinSplit(items[1..]);
      assert items == [items[0]] + items[1..];
    }
  }

  /** The text the CSV writer produces for a value read with `.get(key)`: `None` becomes "". */
  function Text(v: Option<string>): string {
    v.GetOr("")
  }

  /** A value read with `.get(key, "N/A")`. */
  function OrNotAvailable(v: Option<string>): string {
    v.GetOr("N/A")
  }

  /**
   * `business.get("opening_hours", {}).get("weekday_text", [])`: no items when
   * either key is missing, otherwise the weekday texts as given.
   */
  function WeekdayText(b: Business): (texts: seq<string>)
    ensures b.openingHours.None? ==> texts == []
    ensures b.openingHours.Some? && b.openingHours.value.weekdayText.None? ==> texts == []
    ensures b.openingHours.Some? && b.openingHours.value.weekdayText.Some? ==>
      texts == b.openingHours.value.weekdayText.value
  {
    match b.openingHours
    case None => []
    case Some(hours) => hours.weekdayText.GetOr([])
  }

  /** `[review.get("text", "") for review in reviews]`. */
  function ReviewTexts(reviews: seq<Review>): (texts: seq<string>)
    ensures |texts| == |reviews|
    ensures forall i :: 0 <= i < |reviews| ==> texts[i] == reviews[i].text.GetOr("")
  {
    if reviews == [] then [] else [reviews[0].text.GetOr("")] + ReviewTexts(reviews[1..])
  }

  /**
   * The row written for one business, given the "reviews" entries of the two
   * `fetch_reviews` answers (default order, then "recent"). It has one cell per
   * header; address, rating, rating count and website are written as given,
   * or "N/A" when missing; opening hours and the two review lists are written
   * as `"; "`-joined cells.
   */
  function BusinessRow(b: Business, reviews: Option<seq<Review>>, recentReviews: Option<seq<Review>>)
    : (row: seq<string>)
    ensures |row| == |Headers|
    ensures row[0] == Text(b.placeId) && row[1] == Text(b.name)
    ensures b.formattedAddress.None? ==> row[2] == "N/A"
    ensures b.formattedAddress.Some? ==> row[2] == b.formattedAddress.value
    ensures b.rating.None? ==> row[3] == "N/A"
    ensures b.rating.Some? ==> row[3] == b.rating.value
    ensures b.userRatingsTotal.None? ==> row[4] == "N/A"
    ensures b.userRatingsTotal.Some? ==> row[4] == b.userRatingsTotal.value
    ensures row[5] == Join(WeekdayText(b))
    ensures b.website.None? ==> row[6] == "N/A"
    ensures b.website.Some? ==> row[6] == b.website.value
    ensures row[7] == Join(ReviewTexts(reviews.GetOr([])))
    ensures row[8] == Join(ReviewTexts(recentReviews.GetOr([])))
  {
    [Text(b.placeId),
     Text(b.name),
     OrNotAvailable(b.formattedAddress),
     OrNotAvailable(b.rating),
     OrNotAvailable(b.userRatingsTotal),
     Join(WeekdayText(b)),
     OrNotAvailable(b.website),
     Join(ReviewTexts(reviews.GetOr([]))),
     Join(ReviewTexts(recentReviews.GetOr([])))]
  }

  /**
   * The rows `save_to_csv` writes: the header, then one row per business in
   * order, every row as wide as the header.
   */
  function CsvRows(businesses: seq<Business>, lookup: Option<string> -> Option<PlaceDetails>)
    : (rows: seq<seq<string>>)
    ensures |rows| == |businesses| + 1 && rows[0] == Headers
    ensures forall i :: 0 <= i < |rows| ==> |rows[i]| == |Headers|
    ensures forall i :: 0 <= i < |businesses| ==> rows[i + 1][0] == Text(businesses[i].placeId)
    ensures forall i :: 0 <= i < |businesses| ==>
      var id := businesses[i].placeId;
      rows[i + 1] == BusinessRow(businesses[i], FetchReviews(lookup(id), "relevant"), FetchReviews(lookup(id), "recent"))
  {
    [Headers] + seq(|businesses|, i requires 0 <= i < |businesses| => WrittenRow(businesses[i], lookup))
  }

  /** The row of one business, both `fetch_reviews` calls asking `lookup` about its place id. */
  function WrittenRow(b: Business, lookup: Option<string> -> Option<PlaceDetails>): (row: seq<string>)
    ensures |row| == |Headers| && row[0] == Text(b.placeId)
  {
    BusinessRow(b, FetchReviews(lookup(b.placeId), "relevant"), FetchReviews(lookup(b.placeId), "recent"))
  }

  /**
   * The opening-hours cell read back: empty when there are no weekday texts,
   * otherwise, for texts without semicolons, exactly the weekday texts.
   */
  lemma OpeningHoursCell(b: Business, reviews: Option<seq<Review>>, recentReviews: Option<seq<Review>>)
    ensures var row := BusinessRow(b, reviews, recentReviews);
      && (WeekdayText(b) == [] ==> row[5] == "")
      && (WeekdayText(b) != [] && (forall x :: x in WeekdayText(b) ==> ';' !in x) ==>
            Split(row[5]) == WeekdayText(b))
  {
    if WeekdayText(b) != [] && (forall x :: x in WeekdayText(b) ==> ';' !in x) {
      JoinSplit(WeekdayText(b));
    }
  }

  /**
   * The two review cells read back: the texts of the answer's reviews in the
   * order received, and the texts of the same reviews most recent first. A
   * failed request leaves both cells empty.
   */
  lemma ReviewCells(b: Business, answer: Option<PlaceDetails>)
    ensures var row := BusinessRow(b, FetchReviews(answer, "relevant"), FetchReviews(answer, "recent"));
      && (answer.None? ==> row[7] == "" && row[8] == "")
      && (answer.Some? ==>
            var rs := answer.value.reviews.GetOr([]);
            rs != [] && (forall r :: r in rs ==> ';' !in r.text.GetOr("")) ==>
              && Split(row[7]) == ReviewTexts(rs)
              && Split(row[8]) == ReviewTexts(SortNewestFirst(rs)))
  {
    if answer.Some? {
      var rs := answer.value.reviews.GetOr([]);
      if rs != [] && (forall r :: r in rs ==> ';' !in r.text.GetOr("")) {
        assert forall r :: r in SortNewestFirst(rs) ==> r in rs by {
          forall r | r in SortNewestFirst(rs) ensures r in rs {
            assert r in multiset(SortNewestFirst(rs));
          }
        }
        assert |SortNewestFirst(rs)| == |rs| by {
          assert |multiset(SortNewestFirst(rs))| == |multiset(rs)|;
        }
        TextsWithoutSemicolon(rs);
        TextsWithoutSemicolon(SortNewestFirst(rs));
        JoinSplit(ReviewTexts(rs));
        JoinSplit(ReviewTexts(SortNewestFirst(rs)));
      }
    }
  }

  /** The texts of reviews whose texts have no semicolon have no semicolon. */
  lemma TextsWithoutSemicolon(rs: seq<Review>)
    requires forall r :: r in rs ==> ';' !in r.text.GetOr("")
    ensures forall x :: x in ReviewTexts(rs) ==> ';' !in x
  {
    forall x | x in ReviewTexts(rs) ensures ';' !in x {
      var i :| 0 <= i < |rs| && ReviewTexts(rs)[i] == x;
      assert rs[i] in rs;
    }
  }

  /** Written ids differ whenever the ids differ, unless one of them is the empty string. */
  lemma TextDistinguishes(x: Option<string>, y: Option<string>)
    requires x != y && x != Some("") && y != Some("")
    ensures Text(x) != Text(y)
  {
  }

  /**
   * Written for a deduplicated list of businesses, none with the empty string
   * as place id, the place-id column never repeats: one row per place, the
   * one business without a place id included (its cell is empty).
   */
  lemma PlaceIdColumnDistinct(businesses: seq<Business>, lookup: Option<string> -> Option<PlaceDetails>)
    requires DistinctIds(businesses)
    requires forall i :: 0 <= i < |businesses| ==> businesses[i].placeId != Some("")
    ensures var rows := CsvRows(businesses, lookup);
      forall i, j :: 1 <= i < j < |rows| ==> rows[i][0] != rows[j][0]
  {
    var rows := CsvRows(businesses, lookup);
    forall i, j | 1 <= i < j < |rows|
      ensures rows[i][0] != rows[j][0]
    {
      TextDistinguishes(businesses[i - 1].placeId, businesses[j - 1].placeId);
    }
  }
}
