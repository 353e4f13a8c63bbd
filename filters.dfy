/**
 * The sidebar filters: the category multiselect (defaulting to every category) and
 * the name search, applied to the normalised data to give the rows that are drawn.
 */
module Filters {
  import opened Wrappers
  import opened Seqs
  import opened Order
  import opened Text
  import opened Loader

  /** `tip_options`: the sorted distinct categories, which are also the default selection. */
  function DefaultSelection(points: seq<Point>): (sel: seq<string>)
    ensures StrictlyAscending(sel)
    ensures forall t :: t in sel <==> exists i :: 0 <= i < |points| && points[i].tip == t
  {
    var sel := SortedUnique(Tips(points));
    assert forall t :: t in Tips(points) <==> exists i :: 0 <= i < |points| && points[i].tip == t by {
      forall t | t in Tips(points) ensures exists i :: 0 <= i < |points| && points[i].tip == t {
        var i :| 0 <= i < |Tips(points)| && Tips(points)[i] == t;
      }
    }
    sel
  }

  /** `df["Tip"].isin(sel)` as a row predicate. */
  function InSelection(sel: seq<string>): (f: Point -> bool)
    ensures forall p: Point :: f(p) <==> exists k :: 0 <= k < |sel| && sel[k] == p.tip
  {
    (p: Point) => p.tip in sel
  }

  /**
   * `df["İsim"].str.contains(q, case=False, na=False)` as a row predicate: a missing
   * name never matches.
   */
  function NameMatches(q: string): (f: Point -> bool)
    ensures forall p: Point :: p.name.None? ==> !f(p)
    ensures forall p: Point :: p.name.Some? && Contains(p.name.value, q) ==> f(p)
    ensures forall p: Point, p': Point ::
              p.name.Some? && p'.name.Some? && SameUpToCase(p.name.value, p'.name.value) ==> f(p) == f(p')
  {
    var f := (p: Point) => p.name.Some? && ContainsIgnoringCase(p.name.value, q);
    assert forall p: Point, p': Point ::
             p.name.Some? && p'.name.Some? && SameUpToCase(p.name.value, p'.name.value) ==> f(p) == f(p') by {
      forall p: Point, p': Point | p.name.Some? && p'.name.Some? && SameUpToCase(p.name.value, p'.name.value)
        ensures f(p) == f(p')
      {
        CaseInvariant(p.name.value, p'.name.value, q, q);
      }
    }
    f
  }

  /**
   * The rows drawn on the map: the selected categories, then, when the stripped
   * search text is not empty, only the names that contain it.
   */
  function Visible(points: seq<Point>, sel: seq<string>, search: string): (v: seq<Point>)
    ensures |v| <= |points|
    ensures forall p :: p in v ==> p in points
  {
    var q := Strip(search);
    var byTip := Filter(points, InSelection(sel));
    if q != [] then Filter(byTip, NameMatches(q)) else byTip
  }

  /** Whether one row passes both filters. */
  predicate Shown(p: Point, sel: seq<string>, search: string)
  {
    p.tip in sel && (Strip(search) == [] || (p.name.Some? && ContainsIgnoringCase(p.name.value, Strip(search))))
  }

  /**
   * The drawn rows are exactly the rows that pass both filters, each as many times as
   * it occurs in the data.
   */
  lemma VisibleCount(points: seq<Point>, sel: seq<string>, search: string, p: Point)
    ensures multiset(Visible(points, sel, search))[p] ==
            if Shown(p, sel, search) then multiset(points)[p] else 0
  {
    var q := Strip(search);
    FilterCount(points, InSelection(sel), p);
    if q != [] {
      FilterCount(Filter(points, InSelection(sel)), NameMatches(q), p);
    }
  }

  /** A row is drawn iff it is in the data and passes both filters. */
  lemma VisibleMembership(points: seq<Point>, sel: seq<string>, search: string, p: Point)
    ensures p in Visible(points, sel, search) <==> p in points && Shown(p, sel, search)
  {
    VisibleCount(points, sel, search, p);
  }

  /** Filtering keeps the data's row order. */
  lemma VisibleIsSubsequence(points: seq<Point>, sel: seq<string>, search: string)
    ensures IsSubsequence(Visible(points, sel, search), points)
  {
    var byTip := Filter(points, InSelection(sel));
    FilterIsSubsequence(points, InSelection(sel));
    if Strip(search) != [] {
      FilterIsSubsequence(byTip, NameMatches(Strip(search)));
      SubsequenceTransitive(Visible(points, sel, search), byTip, points);
    }
  }

  lemma {:induction false} SubsequenceTransitive(a: seq<Point>, b: seq<Point>, c: seq<Point>)
    requires IsSubsequence(a, b) && IsSubsequence(b, c)
    ensures IsSubsequence(a, c)
    decreases |c|
  {
    if a != [] {
      assert b != [] && c != [];
      if b[0] == c[0] && IsSubsequence(b[1..], c[1..]) {
        if a[0] == b[0] && IsSubsequence(a[1..], b[1..]) {
          SubsequenceTransitive(a[1..], b[1..], c[1..]);
        } else {
          SubsequenceTransitive(a, b[1..], c[1..]);
        }
      } else {
        SubsequenceTransitive(a, b, c[1..]);
      }
    }
  }

  /** Applying the same filters to the drawn rows draws the same rows. */
  lemma VisibleIdempotent(points: seq<Point>, sel: seq<string>, search: string)
    ensures Visible(Visible(points, sel, search), sel, search) == Visible(points, sel, search)
  {
    var v := Visible(points, sel, search);
    forall p | p in v ensures InSelection(sel)(p) && (Strip(search) != [] ==> NameMatches(Strip(search))(p)) {
      VisibleMembership(points, sel, search, p);
    }
    FilterAllKept(v, InSelection(sel));
    if Strip(search) != [] {
      FilterAllKept(v, NameMatches(Strip(search)));
    }
  }

  /** With no category selected nothing is drawn, whatever the search text. */
  lemma EmptySelectionShowsNothing(points: seq<Point>, search: string)
    ensures Visible(points, [], search) == []
  {
    var v := Visible(points, [], search);
    if v != [] {
      VisibleMembership(points, [], search, v[0]);
    }
  }

  /** With the default category selection and a blank search every row is drawn. */
  lemma DefaultSelectionShowsAll(points: seq<Point>, search: string)
    requires Strip(search) == []
    ensures Visible(points, DefaultSelection(points), search) == points
  {
    var sel := DefaultSelection(points);
    forall p | p in points ensures InSelection(sel)(p) {
      var i :| 0 <= i < |points| && points[i] == p;
    }
    FilterAllKept(points, InSelection(sel));
  }

  /** An active search hides every row whose name is missing. */
  lemma MissingNameNeverMatches(points: seq<Point>, sel: seq<string>, search: string, p: Point)
    requires Strip(search) != [] && p.name == None
    ensures p !in Visible(points, sel, search)
  {
    VisibleMembership(points, sel, search, p);
  }

  /** Only the search text between leading and trailing whitespace matters. */
  lemma SearchIsStripped(points: seq<Point>, sel: seq<string>, search: string)
    ensures Visible(points, sel, Strip(search)) == Visible(points, sel, search)
  {
    StripIdempotent(search);
  }
}
