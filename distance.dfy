/**
 * The distance panel: two names are chosen from the sorted distinct names of the
 * unfiltered data; when they differ, the first row with each name is looked up and
 * the distance between the two points is reported.
 */
module Measure {
  import opened Wrappers
  import opened Order
  import opened Loader
  import opened Filters

  /** The names present in the data, in row order (missing names are not offered). */
  function PresentNames(points: seq<Point>): (ns: seq<string>)
    ensures forall n :: n in ns <==> exists i :: 0 <= i < |points| && points[i].name == Some(n)
  {
    if points == [] then []
    else
      var rest := PresentNames(points[1..]);
      assert forall n :: (exists i :: 0 <= i < |points[1..]| && points[1..][i].name == Some(n)) <==>
                         (exists i :: 1 <= i < |points| && points[i].name == Some(n)) by {
        forall n | exists i :: 1 <= i < |points| && points[i].name == Some(n)
          ensures exists i :: 0 <= i < |points[1..]| && points[1..][i].name == Some(n)
        {
          var i :| 1 <= i < |points| && points[i].name == Some(n);
          assert points[1..][i - 1] == points[i];
        }
      }
      (if points[0].name.Some? then [points[0].name.value] else []) + rest
  }

  /** Some row of the data is named `n`. */
  predicate HasName(points: seq<Point>, n: string)
  {
    exists i :: 0 <= i < |points| && points[i].name == Some(n)
  }

  /** `names_all`: the choices offered by both point selectors. */
  function NameChoices(points: seq<Point>): (ns: seq<string>)
    ensures StrictlyAscending(ns)
    ensures forall n :: n in ns <==> HasName(points, n)
  {
    SortedUnique(PresentNames(points))
  }

  /**
   * The selectors' initial picks: the first choice, and the second one when there is
   * one (index `min(1, len - 1)`); with no choices there is nothing to pick.
   */
  function DefaultPicks(choices: seq<string>): (picks: Option<(string, string)>)
    ensures picks.None? <==> choices == []
    ensures picks.Some? ==> picks.value.0 == choices[0] && picks.value.1 in choices
  {
    if choices == [] then None
    else Some((choices[0], choices[if 1 < |choices| - 1 then 1 else |choices| - 1]))
  }

  /**
   * With a single name both selectors start on it and no distance is shown; with two
   * or more they start on the two smallest names, which differ.
   */
  lemma DefaultPicksDifferIff(choices: seq<string>)
    requires StrictlyAscending(choices) && choices != []
    ensures DefaultPicks(choices).value.0 != DefaultPicks(choices).value.1 <==> |choices| >= 2
    ensures |choices| >= 2 ==> DefaultPicks(choices) == Some((choices[0], choices[1]))
  {
    if |choices| >= 2 {
      AscendingDistinct(choices, 0, 1);
    }
  }

  /** Row `i` is the first row whose name is `n`. */
  ghost predicate IsFirst(points: seq<Point>, n: string, i: int)
  {
    0 <= i < |points| && points[i].name == Some(n) &&
    forall j :: 0 <= j < i ==> points[j].name != Some(n)
  }

  /** `df[df["İsim"] == n].iloc[0]`, as a row index; `None` when no row has that name. */
  function FirstWithName(points: seq<Point>, n: string): (r: Option<nat>)
    ensures r.Some? ==> IsFirst(points, n, r.value)
    ensures r.None? <==> forall j :: 0 <= j < |points| ==> points[j].name != Some(n)
  {
    if points == [] then None
    else if points[0].name == Some(n) then Some(0)
    else
      match FirstWithName(points[1..], n)
      case None =>
        assert forall j :: 1 <= j < |points| ==> points[j].name == points[1..][j - 1].name;
        None
      case Some(k) =>
        assert forall j :: 1 <= j <= k ==> points[j].name == points[1..][j - 1].name;
        Some(k + 1)
  }

  /** The square of the Euclidean distance between two points. */
  function SquaredDistance(a: Point, b: Point): (d: int)
    ensures d >= 0
  {
    (a.x - b.x) * (a.x - b.x) + (a.y - b.y) * (a.y - b.y)
  }

  lemma SquaredDistanceSymmetric(a: Point, b: Point)
    ensures SquaredDistance(a, b) == SquaredDistance(b, a)
  {
  }

  lemma SquarePositive(r: int)
    requires r != 0
    ensures r * r > 0
  {
    if r < 0 {
      assert r * r == (-r) * (-r);
    }
  }

  /** Two points are at distance zero exactly when their coordinates agree. */
  lemma SquaredDistanceZeroIff(a: Point, b: Point)
    ensures SquaredDistance(a, b) == 0 <==> a.x == b.x && a.y == b.y
  {
    var dx, dy := a.x - b.x, a.y - b.y;
    if dx != 0 {
      SquarePositive(dx);
    } else if dy != 0 {
      SquarePositive(dy);
    }
  }

  /**
   * The distance shown for the picks `p1` and `p2` (as its square): none when they
   * are the same name, otherwise that between the first rows with each name in the
   * unfiltered data.
   */
  function Distance(points: seq<Point>, p1: string, p2: string): (d: Option<int>)
    requires HasName(points, p1) && HasName(points, p2)
    ensures d.None? <==> p1 == p2
    ensures d.Some? ==> exists i, j :: IsFirst(points, p1, i) && IsFirst(points, p2, j) &&
                                       d.value == SquaredDistance(points[i], points[j])
  {
    if p1 == p2 then None
    else
      var i := FirstWithName(points, p1).value;
      var j := FirstWithName(points, p2).value;
      Some(SquaredDistance(points[i], points[j]))
  }

  /** The first row with a name is unique. */
  lemma FirstUnique(points: seq<Point>, n: string, i: int, j: int)
    requires IsFirst(points, n, i) && IsFirst(points, n, j)
    ensures i == j
  {
  }

  /** Swapping the two picks does not change the distance. */
  lemma DistanceSymmetric(points: seq<Point>, p1: string, p2: string)
    requires HasName(points, p1) && HasName(points, p2)
    ensures Distance(points, p1, p2) == Distance(points, p2, p1)
  {
    if p1 != p2 {
      var i := FirstWithName(points, p1).value;
      var j := FirstWithName(points, p2).value;
      SquaredDistanceSymmetric(points[i], points[j]);
    }
  }

  /**
   * Two differently named points at the same coordinates are at distance zero,
   * which is a distance and not "no distance".
   */
  lemma SameSpotDistinctNames(points: seq<Point>, p1: string, p2: string, i: int, j: int)
    requires HasName(points, p1) && HasName(points, p2) && p1 != p2
    requires IsFirst(points, p1, i) && IsFirst(points, p2, j)
    requires points[i].x == points[j].x && points[i].y == points[j].y
    ensures Distance(points, p1, p2) == Some(0)
  {
    FirstUnique(points, p1, i, FirstWithName(points, p1).value);
    FirstUnique(points, p2, j, FirstWithName(points, p2).value);
    SquaredDistanceZeroIff(points[i], points[j]);
  }

  /**
   * Distances are measured on the unfiltered rows: a point that the filters hide from
   * the map can still be measured.
   */
  lemma HiddenPointStillMeasured(points: seq<Point>, sel: seq<string>, search: string,
                                 p1: string, p2: string, i: int, j: int)
    requires HasName(points, p1) && HasName(points, p2) && p1 != p2
    requires IsFirst(points, p1, i) && IsFirst(points, p2, j) && points[j].tip !in sel
    ensures points[j] !in Visible(points, sel, search)
    ensures Distance(points, p1, p2) == Some(SquaredDistance(points[i], points[j]))
  {
    VisibleMembership(points, sel, search, points[j]);
    FirstUnique(points, p1, i, FirstWithName(points, p1).value);
    FirstUnique(points, p2, j, FirstWithName(points, p2).value);
  }
}
