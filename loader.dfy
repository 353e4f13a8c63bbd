/**
 * `load_data`: each sheet row, already cut down to the four-column window, is named
 * (Tip, İsim, X, Y); X and Y are coerced to numbers, a failed coercion giving a
 * missing value; rows with a missing X or Y are dropped.
 */
module Loader {
  import opened Wrappers

  /** One row of the four-column window: category, name, and the raw X and Y cells. */
  datatype RawRow = RawRow(tip: string, name: Option<string>, x: string, y: string)

  /** A row after `pd.to_numeric(..., errors="coerce")` on X and Y. */
  datatype CoercedRow = CoercedRow(tip: string, name: Option<string>, x: Option<int>, y: Option<int>)

  /** One point of the normalised data set. */
  datatype Point = Point(tip: string, name: Option<string>, x: int, y: int)

  /** The numeric coercion of one cell: `Some(v)` when it reads as a number, `None` otherwise. */
  type Parse = string -> Option<int>

  /** Both coordinates of `r` coerce to numbers. */
  predicate Parses(r: RawRow, parse: Parse)
  {
    parse(r.x).Some? && parse(r.y).Some?
  }

  /** The point a parsable raw row becomes: same category and name, coerced coordinates. */
  function ToPoint(r: RawRow, parse: Parse): (p: Point)
    requires Parses(r, parse)
    ensures p.tip == r.tip && p.name == r.name
    ensures parse(r.x) == Some(p.x) && parse(r.y) == Some(p.y)
  {
    Point(r.tip, r.name, parse(r.x).value, parse(r.y).value)
  }

  /** Coerces the X and Y columns, row by row. */
  function Coerce(rows: seq<RawRow>, parse: Parse): (c: seq<CoercedRow>)
    ensures |c| == |rows|
    ensures forall i :: 0 <= i < |rows| ==>
      c[i].tip == rows[i].tip && c[i].name == rows[i].name &&
      c[i].x == parse(rows[i].x) && c[i].y == parse(rows[i].y)
  {
    seq(|rows|, i requires 0 <= i < |rows| =>
      CoercedRow(rows[i].tip, rows[i].name, parse(rows[i].x), parse(rows[i].y)))
  }

  /** `dropna(subset=["X", "Y"])`: keeps the rows with both coordinates, in order. */
  function DropMissing(rows: seq<CoercedRow>): (r: seq<Point>)
    ensures |r| <= |rows|
    ensures forall p :: p in r <==> exists i :: 0 <= i < |rows| && Completes(rows[i], p)
  {
    if rows == [] then []
    else
      var c := rows[0];
      var rest := DropMissing(rows[1..]);
      assert forall i :: 1 <= i < |rows| ==> rows[1..][i - 1] == rows[i];
      (if c.x.Some? && c.y.Some? then [Point(c.tip, c.name, c.x.value, c.y.value)] else []) + rest
  }

  /** The coerced row `c` has both coordinates and, with them, is the point `p`. */
  predicate Completes(c: CoercedRow, p: Point)
  {
    c.tip == p.tip && c.name == p.name && c.x == Some(p.x) && c.y == Some(p.y)
  }

  /** `load_data()` on a snapshot of the sheet. */
  function LoadData(rows: seq<RawRow>, parse: Parse): (r: seq<Point>)
    ensures |r| <= |rows|
  {
    DropMissing(Coerce(rows, parse))
  }

  /** A single row is kept, unchanged but for its coerced coordinates, iff both coordinates parse. */
  lemma LoadDataSingle(r: RawRow, parse: Parse)
    ensures Parses(r, parse) ==> LoadData([r], parse) == [ToPoint(r, parse)]
    ensures !Parses(r, parse) ==> LoadData([r], parse) == []
  {
    assert Coerce([r], parse)[1..] == [];
  }

  /** Normalisation works row by row: it distributes over concatenation and so keeps order. */
  lemma {:induction false} LoadDataAppend(a: seq<RawRow>, b: seq<RawRow>, parse: Parse)
    ensures LoadData(a + b, parse) == LoadData(a, parse) + LoadData(b, parse)
  {
    if a == [] {
      assert a + b == b;
    } else {
      assert Coerce(a + b, parse)[1..] == Coerce(a[1..] + b, parse);
      assert Coerce(a, parse)[1..] == Coerce(a[1..], parse);
      LoadDataAppend(a[1..], b, parse);
    }
  }

  /** A point is in the data set iff some raw row that parses becomes that point. */
  lemma {:induction false} LoadDataMembership(rows: seq<RawRow>, parse: Parse, p: Point)
    ensures p in LoadData(rows, parse) <==>
      exists i :: 0 <= i < |rows| && Parses(rows[i], parse) && ToPoint(rows[i], parse) == p
  {
    if rows != [] {
      LoadDataMembership(rows[1..], parse, p);
      assert rows == [rows[0]] + rows[1..];
      LoadDataAppend([rows[0]], rows[1..], parse);
      LoadDataSingle(rows[0], parse);
      if exists i :: 0 < i < |rows| && Parses(rows[i], parse) && ToPoint(rows[i], parse) == p {
        var i :| 0 < i < |rows| && Parses(rows[i], parse) && ToPoint(rows[i], parse) == p;
        assert rows[1..][i - 1] == rows[i];
      }
    }
  }

  /** No row is dropped exactly when every row has numeric X and Y. */
  lemma {:induction false} LoadDataKeepsAllIff(rows: seq<RawRow>, parse: Parse)
    ensures |LoadData(rows, parse)| == |rows| <==> forall i :: 0 <= i < |rows| ==> Parses(rows[i], parse)
  {
    if rows != [] {
      LoadDataKeepsAllIff(rows[1..], parse);
      assert rows == [rows[0]] + rows[1..];
      LoadDataAppend([rows[0]], rows[1..], parse);
      LoadDataSingle(rows[0], parse);
      assert |LoadData(rows[1..], parse)| <= |rows[1..]| by {
        assert |DropMissing(Coerce(rows[1..], parse))| <= |Coerce(rows[1..], parse)|;
      }
      if forall i :: 0 < i < |rows| ==> Parses(rows[i], parse) {
        forall i | 0 <= i < |rows[1..]| ensures Parses(rows[1..][i], parse) {
          assert rows[1..][i] == rows[i + 1];
        }
      }
    }
  }

  /** The category column of the data set. */
  function Tips(points: seq<Point>): (ts: seq<string>)
    ensures |ts| == |points|
    ensures forall i :: 0 <= i < |points| ==> ts[i] == points[i].tip
  {
    seq(|points|, i requires 0 <= i < |points| => points[i].tip)
  }
}
