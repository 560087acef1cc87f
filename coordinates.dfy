/**
 * The coordinate file format shared by the two programs:
 * `write_coordinates_to_csv` of Grid.py writes the mesh in it, and
 * `read_coordinates_from_csv` of Prospecting.py reads a file of that format
 * as the location strings of the search requests. The file
 * system and the CSV quoting are not modelled: a file is the list of rows the
 * CSV writer is given, which is the list of rows the CSV reader yields.
 */
module Coordinates {
  import opened Wrappers
  import opened Grid

  /** Why reading the coordinate file fails. */
  datatype ReadError =
    | EmptyFile            // the file has no row at all, not even a header
    | ShortRow(index: nat) // row `index` (0 is the header) has fewer than two cells

  /** The header row `write_coordinates_to_csv` writes. */
  const CoordinateHeader: seq<string> := ["Latitude", "Longitude"]

  /**
   * The location string built from a row: the first cell, then ", ", then the
   * second cell, each recoverable from the string by position.
   */
  function Location(row: seq<string>): (loc: string)
    requires |row| >= 2
    ensures |loc| == |row[0]| + 2 + |row[1]|
    ensures loc[..|row[0]|] == row[0]
    ensures loc[|row[0]|..|row[0]| + 2] == ", "
    ensures loc[|row[0]| + 2..] == row[1]
  {
    row[0] + ", " + row[1]
  }

  /** The location strings of the rows from `from` on, or the first row there that is too short. */
  function Locations(rows: seq<seq<string>>, from: nat): (r: Result<seq<string>, ReadError>)
    requires from <= |rows|
    ensures r.Ok? <==> forall k :: from <= k < |rows| ==> |rows[k]| >= 2
    ensures r.Ok? ==> (
      && |r.value| == |rows| - from
      && forall i :: 0 <= i < |r.value| ==> r.value[i] == Location(rows[from + i]))
    ensures r.Err? ==> (
      && r.error.ShortRow? && from <= r.error.index < |rows| && |rows[r.error.index]| < 2
      && forall k :: from <= k < r.error.index ==> |rows[k]| >= 2)
    decreases |rows| - from
  {
    if from == |rows| then Ok([])
    else if |rows[from]| < 2 then Err(ShortRow(from))
    else
      match Locations(rows, from + 1)
      case Ok(rest) => Ok([Location(rows[from])] + rest)
      case Err(e) => Err(e)
  }

  /**
   * What `read_coordinates_from_csv` returns for a file with these rows: the
   * first row is skipped unread (whatever it holds), and every further row
   * gives "<first cell>, <second cell>". A file without rows fails (the
   * skipped header is missing) and so does one with a row of fewer than two
   * cells; the failure names the first such row.
   */
  function ReadCoordinates(rows: seq<seq<string>>): (r: Result<seq<string>, ReadError>)
    ensures r == Err(EmptyFile) <==> rows == []
    ensures r.Ok? <==> rows != [] && forall k :: 1 <= k < |rows| ==> |rows[k]| >= 2
    ensures r.Ok? ==> (
      && |r.value| == |rows| - 1
      && forall i :: 0 <= i < |r.value| ==> r.value[i] == Location(rows[i + 1]))
    ensures r.Err? && r.error.ShortRow? ==> (
      && 1 <= r.error.index < |rows| && |rows[r.error.index]| < 2
      && forall k :: 1 <= k < r.error.index ==> |rows[k]| >= 2)
  {
    if rows == [] then Err(EmptyFile) else Locations(rows, 1)
  }

  /** `read_coordinates_from_csv`: the loop over the rows after the header. */
  method ReadCoordinatesFromCsv(rows: seq<seq<string>>) returns (r: Result<seq<string>, ReadError>)
    ensures r == ReadCoordinates(rows)
  {
    if rows == [] {
      return Err(EmptyFile);
    }
    var coordinates: seq<string> := [];
    var i := 1;
    while i < |rows|
      invariant 1 <= i <= |rows|
      invariant forall k :: 1 <= k < i ==> |rows[k]| >= 2
      invariant |coordinates| == i - 1
      invariant forall k :: 0 <= k < i - 1 ==> coordinates[k] == Location(rows[k + 1])
    {
      var row := rows[i];
      if |row| < 2 {
        var expected := ReadCoordinates(rows);
        assert expected.Err? && expected.error.ShortRow?;
        assert expected.error.index == i;
        return Err(ShortRow(i));
      }
      coordinates := coordinates + [row[0] + ", " + row[1]];
      i := i + 1;
    }
    r := Ok(coordinates);
    var expected := ReadCoordinates(rows);
    assert expected.Ok?;
    assert expected.value == coordinates;
  }

  /** The rows `write_coordinates_to_csv` writes for the mesh, each value written as `fmt` renders it. */
  function CoordinateRows(points: seq<GeoPoint>, fmt: real -> string): (rows: seq<seq<string>>)
    ensures |rows| == |points| + 1 && rows[0] == CoordinateHeader
    ensures forall i :: 0 <= i < |points| ==> rows[i + 1] == [fmt(points[i].lat), fmt(points[i].lon)]
  {
    [CoordinateHeader] + seq(|points|, i requires 0 <= i < |points| => [fmt(points[i].lat), fmt(points[i].lon)])
  }

  /**
   * Reading back the file written for a mesh yields one location string per
   * mesh point, in mesh order, latitude first: the header is the row skipped.
   */
  lemma WrittenMeshReadsBack(points: seq<GeoPoint>, fmt: real -> string)
    ensures var r := ReadCoordinates(CoordinateRows(points, fmt));
      && r.Ok? && |r.value| == |points|
      && forall i :: 0 <= i < |points| ==> r.value[i] == fmt(points[i].lat) + ", " + fmt(points[i].lon)
  {
    var rows := CoordinateRows(points, fmt);
    assert forall k :: 1 <= k < |rows| ==> |rows[k]| >= 2 by {
      forall k | 1 <= k < |rows| ensures |rows[k]| >= 2 {
        assert rows[(k - 1) + 1] == [fmt(points[k - 1].lat), fmt(points[k - 1].lon)];
      }
    }
  }

  /**
   * The search locations read back from a file the grid program writes: one per lattice point, latitude row `k / n` and
   * longitude column `k % n` for the `k`-th, where `n` is the number of columns.
   */
  lemma GridFileReadsBack(centerLat: real, centerLon: real, sideKm: real, radiusKm: real, cosLat: real,
                          fmt: real -> string, k: int)
    requires 0.0 < cosLat <= 1.0 && radiusKm != 0.0
    requires 0 <= k < |LatPoints(centerLat, sideKm, radiusKm)| * |LonPoints(centerLon, sideKm, radiusKm, cosLat)|
    ensures var lats, lons := LatPoints(centerLat, sideKm, radiusKm), LonPoints(centerLon, sideKm, radiusKm, cosLat);
      var grid := GenerateFullCoverageGrid(centerLat, centerLon, sideKm, radiusKm, cosLat);
      var r := ReadCoordinates(CoordinateRows(grid.value, fmt));
      && r.Ok? && |r.value| == |lats| * |lons|
      && |lons| > 0 && k / |lons| < |lats|
      && r.value[k] == fmt(lats[k / |lons|]) + ", " + fmt(lons[k % |lons|])
  {
    var grid := GenerateFullCoverageGrid(centerLat, centerLon, sideKm, radiusKm, cosLat);
    WrittenMeshReadsBack(grid.value, fmt);
    GridRowMajor(centerLat, centerLon, sideKm, radiusKm, cosLat, k);
  }
}
