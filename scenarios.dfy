/** Worked examples of the pipeline on small data sets. */
module Scenarios {
  import opened Wrappers
  import opened Seqs
  import opened Order
  import opened Text
  import opened Loader
  import opened Filters
  import opened Measure
  import opened Scene

  function Sample(): seq<Point>
  {
    [Point("Oyuncu", Some("A"), 0, 0), Point("Oyuncu", Some("B"), 3, 4), Point("Hedef", Some("C"), -5, -5)]
  }

  /** A at (0, 0) and B at (3, 4) are 5 apart: the squared distance is 25. */
  lemma SampleDistance()
    ensures HasName(Sample(), "A") && HasName(Sample(), "B")
    ensures Distance(Sample(), "A", "B") == Some(25)
  {
    var d := Sample();
    assert HasName(d, "A") by { assert d[0].name == Some("A"); }
    assert HasName(d, "B") by { assert d[1].name == Some("B"); }
    assert FirstWithName(d, "A") == Some(0);
    assert d[1..][0] == d[1];
    assert FirstWithName(d, "B") == Some(1);
  }

  /** Selecting only "Hedef" draws a single red trace holding C alone. */
  lemma SampleOnlyTargets(size: int, opacityPercent: int)
    ensures Traces(Visible(Sample(), ["Hedef"], ""), size, opacityPercent) ==
            [Trace("Hedef", [Sample()[2]], Marker(size, Opacity(opacityPercent), Some("#FF4B4B")))]
  {
    var d := Sample();
    var v := Visible(d, ["Hedef"], "");
    assert Strip("") == "";
    assert v == [d[2]] by {
      assert d[1..][1..] == [d[2]];
    }
    assert Tips(v) == ["Hedef"];
    assert SortedUnique(Tips(v)) == ["Hedef"];
    assert Filter(v, OfCategory("Hedef")) == v;
    assert ColorFor("Hedef") == Some("#FF4B4B");
    assert TracesFor(["Hedef"], v, size, opacityPercent)[0] == MakeTrace("Hedef", v, size, opacityPercent);
  }

  lemma StripOfB()
    ensures Strip("b") == "b"
  {
    assert "b"[0] == 'b' && "b"[|"b"| - 1] == 'b';
    assert !IsSpace('b');
    assert TrimStart("b") == "b";
    assert TrimEnd("b") == "b";
  }

  lemma NamesAgainstB(a: Point, b: Point, c: Point)
    requires a.name == Some("Ab") && b.name == Some("ab") && c.name == Some("C")
    ensures NameMatches("b")(a) && NameMatches("b")(b) && !NameMatches("b")(c)
  {
    assert Lower("b") == "b" && Lower("Ab") == "ab" && Lower("ab") == "ab" && Lower("C") == "c";
    assert OccursAt("ab", "b", 1);
    assert !Contains("c", "b") by {
      assert "c"[0] != "b"[0];
      assert !("b" <= "c");
      assert "c"[1..] == [];
      assert !Contains([], "b");
    }
  }

  /** Whatever their categories, the search "b" keeps names "Ab" and "ab" and drops "C". */
  lemma SearchIgnoresCase(a: Point, b: Point, c: Point, sel: seq<string>)
    requires a.name == Some("Ab") && b.name == Some("ab") && c.name == Some("C")
    requires a.tip in sel && b.tip in sel && c.tip in sel
    ensures Visible([a, b, c], sel, "b") == [a, b]
  {
    var rows := [a, b, c];
    StripOfB();
    NamesAgainstB(a, b, c);
    FilterAllKept(rows, InSelection(sel));
    var p := NameMatches("b");
    assert rows[1..] == [b, c] && rows[1..][1..] == [c] && [c][1..] == [];
    assert Filter([c], p) == [];
    assert Filter(rows[1..], p) == [b];
  }
}
