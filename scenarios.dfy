/** Worked examples of the correlation on small concrete inputs. */
module Scenarios {
  import opened Wrappers
  import opened Diff
  import opened Clover
  import opened Correlation
  import opened Totals

  /** `foo.py` adds lines 10 and 12. */
  const FooDiff: FileDiff := FileDiff("foo.py", [Hunk([Segment(Added, [DiffLine(10), DiffLine(12)])])])

  /** Statement records for line 10 (never run) and line 12 (run three times), none for line 11. */
  const FooReport: seq<LineRecord> := [LineRecord("foo.py", 10, Statement, 0), LineRecord("foo.py", 12, Statement, 3)]

  lemma FooAddedLines()
    ensures AddedLines(FooDiff) == {10, 12}
  {
    var segLines := [DiffLine(10), DiffLine(12)];
    assert segLines[..1] == [DiffLine(10)];
    assert [DiffLine(10)][..0] == [];
    assert LineNumbers(segLines) == {10, 12};
  }

  lemma FooClassify()
    ensures Classify(FooReport, "foo.py", 10) == Some(false)
    ensures Classify(FooReport, "foo.py", 12) == Some(true)
  {
    assert FirstMatch(FooReport, "foo.py", 10) == Some(0);
    assert !Matches(FooReport[0], "foo.py", 12) && FooReport[1..] == [FooReport[1]];
    assert FirstMatch(FooReport, "foo.py", 12) == Some(1);
  }

  /** Line 10 is tracked as uncovered and line 12 as covered; line 11 has no record and is absent. */
  lemma FooTracked()
    ensures TrackedLines(FooDiff, FooReport, "") == map[10 := false, 12 := true]
  {
    FooAddedLines();
    FooClassify();
    assert "" + "foo.py" == "foo.py";
    assert TrackedLines(FooDiff, FooReport, "").Keys == {10, 12};
  }

  /**
   * Correlating the one-file diff stores that map under `foo.py`; the file
   * reads 50 percent, with line 10 as its only uncovered line.
   */
  lemma FooScenario()
    ensures "foo.py" in Correlate([FooDiff], FooReport, "")
    ensures Correlate([FooDiff], FooReport, "")["foo.py"] == map[10 := false, 12 := true]
    ensures var lines := Correlate([FooDiff], FooReport, "")["foo.py"];
      Percent(|CoveredLines(lines)|, |lines|) == 50.0 && UncoveredLines(lines) == {10}
  {
    FooTracked();
    assert [FooDiff][..0] == [];
    var lines := map[10 := false, 12 := true];
    assert Correlate([FooDiff], FooReport, "") == map["foo.py" := lines];
    assert CoveredLines(lines) == {12};
    assert UncoveredLines(lines) == {10};
    assert |CoveredLines(lines)| == 1 && |lines| == 2;
    assert Percent(1, 2) == 50.0;
  }

  /**
   * `bar.py` adds line 5, whose record is a method declaration: the file's
   * map is empty, so it is left out of the report and adds nothing to the
   * total.
   */
  lemma BarScenario()
    ensures var fd := FileDiff("bar.py", [Hunk([Segment(Added, [DiffLine(5)])])]);
      var doc := [LineRecord("bar.py", 5, "method", 2)];
      TrackedLines(fd, doc, "") == map[]
  {
    var fd := FileDiff("bar.py", [Hunk([Segment(Added, [DiffLine(5)])])]);
    var doc := [LineRecord("bar.py", 5, "method", 2)];
    assert [DiffLine(5)][..0] == [];
    assert AddedLines(fd) == {5};
    assert "" + "bar.py" == "bar.py";
    assert Classify(doc, "bar.py", 5) == None;
  }
}
