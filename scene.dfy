/**
 * The figure: one scatter trace per category of the drawn rows, in ascending category
 * order, then the axes fixed to the map's bounds with the chosen grid settings.
 */
module Scene {
  import opened Wrappers
  import opened Seqs
  import opened Order
  import opened Loader
  import opened Text
  import opened Filters

  /** The map's bounds on both axes. */
  const MinLimit: int := -200
  const MaxLimit: int := 200

  /** The categories with a fixed colour; every other category gets none. */
  const ColorMap: map<string, string> := map["Oyuncu" := "#4C78FF", "Hedef" := "#FF4B4B"]

  /** `color_map.get(tip, None)`. */
  function ColorFor(tip: string): (c: Option<string>)
    ensures tip == "Oyuncu" ==> c == Some("#4C78FF")
    ensures tip == "Hedef" ==> c == Some("#FF4B4B")
    ensures tip != "Oyuncu" && tip != "Hedef" ==> c == None
  {
    if tip in ColorMap then Some(ColorMap[tip]) else None
  }

  datatype Marker = Marker(size: int, opacity: real, color: Option<string>)

  /**
   * One scatter trace: its legend name and the rows it plots (its x, y and hover
   * text are those rows' X, Y and name columns), drawn with `marker`.
   */
  datatype Trace = Trace(name: string, points: seq<Point>, marker: Marker)

  /** The opacity slider runs over percentages; the marker takes a fraction. */
  function Opacity(percent: int): real
  {
    percent as real / 100.0
  }

  /** `dfv["Tip"] == tip` as a row predicate. */
  function OfCategory(tip: string): Point -> bool
  {
    (p: Point) => p.tip == tip
  }

  /** The trace that one pass of the loop adds for category `tip`. */
  function MakeTrace(tip: string, dfv: seq<Point>, size: int, opacityPercent: int): (t: Trace)
    ensures t.name == tip && |t.points| <= |dfv|
    ensures forall p :: p in t.points <==> p in dfv && p.tip == tip
    ensures t.marker.size == size && t.marker.color == ColorFor(tip)
  {
    Trace(tip, Filter(dfv, OfCategory(tip)), Marker(size, Opacity(opacityPercent), ColorFor(tip)))
  }

  /** The traces for the categories `tips`, in that order. */
  function TracesFor(tips: seq<string>, dfv: seq<Point>, size: int, opacityPercent: int): (ts: seq<Trace>)
    ensures |ts| == |tips|
    ensures forall k :: 0 <= k < |tips| ==> ts[k] == MakeTrace(tips[k], dfv, size, opacityPercent)
  {
    seq(|tips|, k requires 0 <= k < |tips| => MakeTrace(tips[k], dfv, size, opacityPercent))
  }

  /** The traces the figure ends up with: one per distinct category, in sorted order. */
  function Traces(dfv: seq<Point>, size: int, opacityPercent: int): (ts: seq<Trace>)
    ensures |ts| <= |dfv|
    ensures forall k :: 0 <= k < |ts| ==> ts[k].points != []
  {
    var tips := SortedUnique(Tips(dfv));
    var ts := TracesFor(tips, dfv, size, opacityPercent);
    assert forall k :: 0 <= k < |ts| ==> ts[k].points != [] by {
      forall k | 0 <= k < |ts| ensures ts[k].points != [] {
        assert tips[k] in tips;
        var i :| 0 <= i < |Tips(dfv)| && Tips(dfv)[i] == tips[k];
        assert dfv[i] in ts[k].points;
      }
    }
    ts
  }

  /** The legend names of `ts`, in order. */
  function Names(ts: seq<Trace>): (ns: seq<string>)
    ensures |ns| == |ts| && forall k :: 0 <= k < |ts| ==> ns[k] == ts[k].name
  {
    seq(|ts|, k requires 0 <= k < |ts| => ts[k].name)
  }

  /** Every row of every trace, trace after trace. */
  function AllPoints(ts: seq<Trace>): seq<Point>
  {
    if ts == [] then [] else ts[0].points + AllPoints(ts[1..])
  }

  /**
   * There is one trace per category of the drawn rows and no other, and the traces
   * come in strictly ascending category order.
   */
  lemma TracesOnePerCategory(dfv: seq<Point>, size: int, opacityPercent: int)
    ensures StrictlyAscending(Names(Traces(dfv, size, opacityPercent)))
    ensures forall t :: t in Names(Traces(dfv, size, opacityPercent)) <==> t in Tips(dfv)
  {
    var tips := SortedUnique(Tips(dfv));
    var ts := Traces(dfv, size, opacityPercent);
    assert Names(ts) == tips;
  }

  /**
   * Each trace holds exactly the drawn rows of its category, in their order, each as
   * often as it occurs.
   */
  lemma TraceHoldsItsCategory(dfv: seq<Point>, size: int, opacityPercent: int, k: int)
    requires 0 <= k < |Traces(dfv, size, opacityPercent)|
    ensures var t := Traces(dfv, size, opacityPercent)[k];
            IsSubsequence(t.points, dfv) &&
            forall p :: multiset(t.points)[p] == if p.tip == t.name then multiset(dfv)[p] else 0
  {
    var t := Traces(dfv, size, opacityPercent)[k];
    FilterIsSubsequence(dfv, OfCategory(t.name));
    forall p ensures multiset(t.points)[p] == if p.tip == t.name then multiset(dfv)[p] else 0 {
      FilterCount(dfv, OfCategory(t.name), p);
    }
  }

  /**
   * Every trace is drawn with the same marker size and opacity, and coloured by its
   * category alone.
   */
  lemma TracesShareStyle(dfv: seq<Point>, size: int, opacityPercent: int)
    ensures var ts := Traces(dfv, size, opacityPercent);
            forall k :: 0 <= k < |ts| ==>
              ts[k].marker.size == size && ts[k].marker.opacity * 100.0 == opacityPercent as real &&
              ts[k].marker.color == ColorFor(ts[k].name)
  {
  }

  /** The traces of distinct categories `tips` hold exactly the rows of those categories. */
  lemma {:induction false} TracesForCover(tips: seq<string>, dfv: seq<Point>, size: int, opacityPercent: int)
    requires forall i, j :: 0 <= i < j < |tips| ==> tips[i] != tips[j]
    ensures multiset(AllPoints(TracesFor(tips, dfv, size, opacityPercent))) ==
            multiset(Filter(dfv, InSelection(tips)))
  {
    var ts := TracesFor(tips, dfv, size, opacityPercent);
    if tips == [] {
      forall p ensures multiset(Filter(dfv, InSelection(tips)))[p] == 0 {
        FilterCount(dfv, InSelection(tips), p);
      }
      assert multiset(Filter(dfv, InSelection(tips))) == multiset{};
    } else {
      assert ts[1..] == TracesFor(tips[1..], dfv, size, opacityPercent);
      TracesForCover(tips[1..], dfv, size, opacityPercent);
      assert tips == [tips[0]] + tips[1..];
      FilterSplit(dfv, OfCategory(tips[0]), InSelection(tips[1..]), InSelection(tips));
    }
  }

  /** Together the traces hold every drawn row exactly once: none is lost or repeated. */
  lemma TracesCoverRows(dfv: seq<Point>, size: int, opacityPercent: int)
    ensures multiset(AllPoints(Traces(dfv, size, opacityPercent))) == multiset(dfv)
  {
    var tips := SortedUnique(Tips(dfv));
    forall i, j | 0 <= i < j < |tips| ensures tips[i] != tips[j] {
      AscendingDistinct(tips, i, j);
    }
    TracesForCover(tips, dfv, size, opacityPercent);
    forall p | p in dfv ensures InSelection(tips)(p) {
      var i :| 0 <= i < |dfv| && dfv[i] == p;
      assert Tips(dfv)[i] == p.tip;
    }
    FilterAllKept(dfv, InSelection(tips));
  }

  /**
   * On first load (every category selected, blank search) the traces together hold
   * every row of the data set.
   */
  lemma DefaultViewDrawsEverything(points: seq<Point>, search: string, size: int, opacityPercent: int)
    requires Strip(search) == []
    ensures multiset(AllPoints(Traces(Visible(points, DefaultSelection(points), search), size, opacityPercent)))
            == multiset(points)
  {
    DefaultSelectionShowsAll(points, search);
    TracesCoverRows(points, size, opacityPercent);
  }

  /** No drawn rows, no traces. */
  lemma NoRowsNoTraces(size: int, opacityPercent: int)
    ensures Traces([], size, opacityPercent) == []
  {
  }

  /**
   * The axis properties the figure has been given; `None` leaves the renderer's
   * default in place.
   */
  datatype Axis = Axis(
    range: Option<(int, int)>,
    autorange: Option<bool>,
    fixedRange: Option<bool>,
    showGrid: Option<bool>,
    dtick: Option<int>,
    scaleAnchor: Option<string>,
    scaleRatio: Option<int>)

  const Unset: Axis := Axis(None, None, None, None, None, None, None)

  function Override<T>(current: Option<T>, update: Option<T>): Option<T>
  {
    if update.Some? then update else current
  }

  /** `update_xaxes`/`update_yaxes`: the properties given replace the current ones. */
  function Merge(a: Axis, u: Axis): Axis
  {
    Axis(Override(a.range, u.range), Override(a.autorange, u.autorange),
         Override(a.fixedRange, u.fixedRange), Override(a.showGrid, u.showGrid),
         Override(a.dtick, u.dtick), Override(a.scaleAnchor, u.scaleAnchor),
         Override(a.scaleRatio, u.scaleRatio))
  }

  /** The figure under construction. */
  class Figure {
    var traces: seq<Trace>
    var xaxis: Axis
    var yaxis: Axis

    /** `go.Figure()`: no traces and no axis property set. */
    constructor ()
      ensures traces == [] && xaxis == Unset && yaxis == Unset
    {
      traces := [];
      xaxis := Unset;
      yaxis := Unset;
    }

    /** `fig.add_trace(t)`. */
    method AddTrace(t: Trace)
      modifies this
      ensures traces == old(traces) + [t]
      ensures xaxis == old(xaxis) && yaxis == old(yaxis)
    {
      traces := traces + [t];
    }

    /** `fig.update_xaxes(...)`. */
    method UpdateXAxes(u: Axis)
      modifies this
      ensures xaxis == Merge(old(xaxis), u)
      ensures traces == old(traces) && yaxis == old(yaxis)
    {
      xaxis := Merge(xaxis, u);
    }

    /** `fig.update_yaxes(...)`. */
    method UpdateYAxes(u: Axis)
      modifies this
      ensures yaxis == Merge(old(yaxis), u)
      ensures traces == old(traces) && xaxis == old(xaxis)
    {
      yaxis := Merge(yaxis, u);
    }
  }

  /**
   * Builds the figure for the drawn rows `dfv`. The axes are fixed to the map's bounds
   * whether or not the reset button was pressed: `resetView` changes nothing.
   */
  method BuildFigure(dfv: seq<Point>, showGrid: bool, tickStep: int, markerSize: int,
                     opacityPercent: int, resetView: bool) returns (fig: Figure)
    ensures fresh(fig)
    ensures fig.traces == Traces(dfv, markerSize, opacityPercent)
    ensures fig.xaxis.range == Some((MinLimit, MaxLimit)) && fig.yaxis.range == Some((MinLimit, MaxLimit))
    ensures fig.xaxis.autorange == Some(false) && fig.yaxis.autorange == Some(false)
    ensures fig.xaxis.fixedRange == Some(false) && fig.yaxis.fixedRange == Some(false)
    ensures fig.xaxis.showGrid == Some(showGrid) && fig.yaxis.showGrid == Some(showGrid)
    ensures fig.xaxis.dtick == Some(tickStep) && fig.yaxis.dtick == Some(tickStep)
    ensures fig.xaxis.scaleAnchor == None && fig.xaxis.scaleRatio == None
    ensures fig.yaxis.scaleAnchor == Some("x") && fig.yaxis.scaleRatio == Some(1)
  {
    fig := new Figure();
    var tips := SortedUnique(Tips(dfv));
    var i := 0;
    while i < |tips|
      invariant 0 <= i <= |tips|
      invariant fig.traces == TracesFor(tips[..i], dfv, markerSize, opacityPercent)
      invariant fig.xaxis == Unset && fig.yaxis == Unset
    {
      fig.AddTrace(MakeTrace(tips[i], dfv, markerSize, opacityPercent));
      assert tips[..i + 1] == tips[..i] + [tips[i]];
      i := i + 1;
    }
    assert tips[..i] == tips;
    var range := Some((MinLimit, MaxLimit));
    fig.UpdateXAxes(Axis(range, Some(false), Some(false), Some(showGrid), Some(tickStep), None, None));
    fig.UpdateYAxes(Axis(range, Some(false), Some(false), Some(showGrid), Some(tickStep), Some("x"), Some(1)));
  }
}
