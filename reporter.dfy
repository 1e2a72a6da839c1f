/**
 * `CoverageReporter`: builds `file_diffs` from the diff and the coverage
 * report once, on construction, and answers the total-coverage and report
 * queries from it.
 */
module Reporter {
  import opened Diff
  import opened Clover
  import opened Correlation
  import opened Totals

  /** One per-file line of the report: the file, its percentage and its uncovered lines. */
  datatype FileSummary = FileSummary(fileName: string, percent: real, uncovered: seq<int>)

  ghost function Elements(s: seq<int>): set<int>
  {
    set x | x in s
  }

  ghost predicate Distinct(s: seq<int>)
  {
    forall a, b :: 0 <= a < b < |s| ==> s[a] != s[b]
  }

  /** The files a report lists. */
  ghost function FileNames(files: seq<FileSummary>): set<string>
  {
    set i | 0 <= i < |files| :: files[i].fileName
  }

  lemma FileNamesAppend(files: seq<FileSummary>, fs: FileSummary)
    ensures FileNames(files + [fs]) == FileNames(files) + {fs.fileName}
  {
    var both := files + [fs];
    forall n | n in FileNames(both) ensures n in FileNames(files) + {fs.fileName} {
      var i :| 0 <= i < |both| && both[i].fileName == n;
      if i < |files| {
        assert files[i].fileName == n;
      }
    }
    forall n | n in FileNames(files) ensures n in FileNames(both) {
      var i :| 0 <= i < |files| && files[i].fileName == n;
      assert both[i].fileName == n;
    }
    assert both[|files|].fileName == fs.fileName;
  }

  /** The files among `keys` that have at least one tracked line: those the report lists. */
  ghost function Reportable(fileDiffs: map<string, map<int, bool>>, keys: set<string>): set<string>
  {
    set f | f in keys && f in fileDiffs && fileDiffs[f] != map[]
  }

  lemma ReportableAdd(fileDiffs: map<string, map<int, bool>>, keys: set<string>, f: string)
    requires f in fileDiffs
    ensures Reportable(fileDiffs, keys + {f})
      == Reportable(fileDiffs, keys) + (if fileDiffs[f] != map[] then {f} else {})
  {
  }

  /** `fs` reports the map `lines` of its file: percentage and uncovered lines. */
  ghost predicate Summarizes(fs: FileSummary, lines: map<int, bool>)
  {
    && fs.percent == Percent(|CoveredLines(lines)|, |lines|)
    && Elements(fs.uncovered) == UncoveredLines(lines)
    && Distinct(fs.uncovered)
  }

  /** A non-empty set of line numbers has a member to pick. */
  lemma NonEmptyHasMember(s: set<int>)
    requires s != {}
    ensures exists x :: x in s
  {
    if forall x :: x !in s {
      assert false;
    }
  }

  /**
   * The filtered key list `uncovered_lines`: each line mapped to false, once.
   * Its order is that of dict iteration, which is not modelled.
   */
  method UncoveredList(lines: map<int, bool>) returns (u: seq<int>)
    ensures Elements(u) == UncoveredLines(lines)
    ensures Distinct(u) && |u| == |UncoveredLines(lines)|
  {
    u := [];
    var rest := lines.Keys;
    while rest != {}
      invariant rest <= lines.Keys
      invariant Elements(u) == set x | x in lines && x !in rest && !lines[x]
      invariant Distinct(u) && |u| == |Elements(u)|
    {
      NonEmptyHasMember(rest);
      var l :| l in rest;
      if !lines[l] {
        assert Elements(u + [l]) == Elements(u) + {l};
        u := u + [l];
      }
      rest := rest - {l};
    }
  }

  /** Every summary reports its file's map, and no file is listed twice. */
  ghost predicate Describes(files: seq<FileSummary>, fileDiffs: map<string, map<int, bool>>)
  {
    && (forall i :: 0 <= i < |files| ==>
          files[i].fileName in fileDiffs && Summarizes(files[i], fileDiffs[files[i].fileName]))
    && (forall a, b :: 0 <= a < b < |files| ==> files[a].fileName != files[b].fileName)
  }

  lemma DescribesAppend(files: seq<FileSummary>, fileDiffs: map<string, map<int, bool>>, fs: FileSummary)
    requires Describes(files, fileDiffs)
    requires fs.fileName in fileDiffs && Summarizes(fs, fileDiffs[fs.fileName])
    requires fs.fileName !in FileNames(files)
    ensures Describes(files + [fs], fileDiffs)
    ensures FileNames(files + [fs]) == FileNames(files) + {fs.fileName}
  {
    FileNamesAppend(files, fs);
    var both := files + [fs];
    forall a, b | 0 <= a < b < |both| ensures both[a].fileName != both[b].fileName {
      if b == |files| {
        assert both[a].fileName == files[a].fileName;
      }
    }
  }

  /**
   * One file's part of the report, for a file with tracked lines: its
   * uncovered lines and 100 times one minus their fraction.
   */
  method Summarize(fileName: string, lines: map<int, bool>) returns (summary: FileSummary)
    requires lines != map[]
    ensures summary.fileName == fileName && Summarizes(summary, lines)
  {
    var uncoveredLines := UncoveredList(lines);
    var covPct := (1.0 - (|uncoveredLines| as real / |lines| as real)) * 100.0;
    ComplementPercent(lines);
    summary := FileSummary(fileName, covPct, uncoveredLines);
  }

  class CoverageReporter {
    /** The diff document, `stash_repo_diff['diffs']`. */
    const stashRepoDiff: seq<FileDiff>
    /** File name to (line to covered), for the added statement lines. */
    var fileDiffs: map<string, map<int, bool>>
    /** The coverage report and base path `_parse` was given. */
    ghost var coverage: seq<LineRecord>
    ghost var basePath: string

    ghost predicate Valid()
      reads this
    {
      fileDiffs == Correlate(stashRepoDiff, coverage, basePath)
    }

    constructor (stashRepoDiff: seq<FileDiff>, records: seq<LineRecord>, basePath: string)
      ensures this.stashRepoDiff == stashRepoDiff && coverage == records && this.basePath == basePath
      ensures Valid()
    {
      this.stashRepoDiff := stashRepoDiff;
      new;
      Parse(records, basePath);
    }

    /** Correlates every added line of every file entry with the report. */
    method Parse(records: seq<LineRecord>, basePath: string)
      modifies this
      ensures fileDiffs == Correlate(stashRepoDiff, records, basePath)
      ensures coverage == records && this.basePath == basePath
      ensures Valid()
    {
      var diffs := stashRepoDiff;
      var fileDiffs: map<string, map<int, bool>> := map[];
      for i := 0 to |diffs|
        invariant fileDiffs == Correlate(diffs[..i], records, basePath)
      {
        var diff := diffs[i];
        var fileName := diff.destination;
        var name := basePath + fileName;
        var addedLines: map<int, bool> := map[];
        // the candidate lines seen so far, of which `addedLines` keeps the tracked ones
        ghost var seen: set<int> := {};
        for h := 0 to |diff.hunks|
          invariant seen == HunksAdds(diff.hunks[..h])
          invariant addedLines == Track(seen, records, name)
        {
          var hunk := diff.hunks[h];
          assert diff.hunks[..h + 1][..h] == diff.hunks[..h];
          ghost var before := seen;
          for s := 0 to |hunk.segments|
            invariant seen == before + SegmentsAdds(hunk.segments[..s])
            invariant addedLines == Track(seen, records, name)
          {
            var seg := hunk.segments[s];
            assert hunk.segments[..s + 1][..s] == hunk.segments[..s];
            if seg.kind != Added {
              continue;
            }
            ghost var sofar := seen;
            for k := 0 to |seg.lines|
              invariant seen == sofar + LineNumbers(seg.lines[..k])
              invariant addedLines == Track(seen, records, name)
            {
              var line := seg.lines[k];
              assert seg.lines[..k + 1][..k] == seg.lines[..k];
              TrackInsert(seen, records, name, line.destination);
              seen := seen + {line.destination};
              var coveredLine := Lookup(records, name, line.destination);
              if coveredLine.None? || coveredLine.value.kind != Statement {
                continue;
              }
              var record := coveredLine.value;
              var covered := record.count > 0;
              addedLines := addedLines[record.num := covered];
            }
            assert seg.lines[..|seg.lines|] == seg.lines;
          }
          assert hunk.segments[..|hunk.segments|] == hunk.segments;
        }
        assert diff.hunks[..|diff.hunks|] == diff.hunks;
        assert diffs[..i + 1][..i] == diffs[..i];
        fileDiffs := fileDiffs[fileName := addedLines];
      }
      assert diffs[..|diffs|] == diffs;
      this.fileDiffs := fileDiffs;
      coverage := records;
      this.basePath := basePath;
    }

    /**
     * The whole map: one entry per file of the diff, each the tracked lines of
     * the last file entry with that name.
     */
    function GetFileCoverageLines(): (r: map<string, map<int, bool>>)
      reads this
      requires Valid()
      ensures r.Keys == Destinations(stashRepoDiff)
      ensures forall j :: LastEntryFor(stashRepoDiff, j) ==>
        r[stashRepoDiff[j].destination] == TrackedLines(stashRepoDiff[j], coverage, basePath)
    {
      CorrelateShape(stashRepoDiff, coverage, basePath);
      fileDiffs
    }

    /** Covered over tracked lines across all files, times 100; exactly 100 when nothing is tracked. */
    method GetTotalCoverage() returns (pct: real)
      ensures pct == Percent(TotalCovered(fileDiffs), TotalTracked(fileDiffs))
      ensures 0.0 <= pct <= 100.0
      ensures (forall f :: f in fileDiffs ==> fileDiffs[f] == map[]) ==> pct == 100.0
    {
      var totalLines, coveredLines := 0, 0;
      var keys := fileDiffs.Keys;
      while keys != {}
        invariant keys <= fileDiffs.Keys
        invariant totalLines == SumOver(TrackedCounts(fileDiffs), fileDiffs.Keys - keys)
        invariant coveredLines == SumOver(CoveredCounts(fileDiffs), fileDiffs.Keys - keys)
      {
        var key :| key in keys;
        totalLines := totalLines + |fileDiffs[key]|;
        coveredLines := coveredLines + |CoveredLines(fileDiffs[key])|;
        ghost var done := fileDiffs.Keys - keys;
        SumOverRemove(TrackedCounts(fileDiffs), done + {key}, key);
        SumOverRemove(CoveredCounts(fileDiffs), done + {key}, key);
        assert done + {key} - {key} == done;
        assert done + {key} == fileDiffs.Keys - (keys - {key});
        keys := keys - {key};
      }
      assert fileDiffs.Keys - keys == fileDiffs.Keys;
      CoveredAtMostTracked(fileDiffs);
      NoTrackedLines(fileDiffs);
      if totalLines == 0 {
        return 100.0;
      }
      return (coveredLines as real / totalLines as real) * 100.0;
    }

    /**
     * The content of the text report: the total percentage, then one summary
     * for each file with at least one tracked line, and for no other file.
     * The order of the summaries is that of dict iteration, which is not
     * modelled.
     */
    method Report() returns (total: real, files: seq<FileSummary>)
      ensures total == Percent(TotalCovered(fileDiffs), TotalTracked(fileDiffs))
      ensures FileNames(files) == Reportable(fileDiffs, fileDiffs.Keys)
      ensures Describes(files, fileDiffs)
    {
      total := GetTotalCoverage();
      files := [];
      var names := fileDiffs.Keys;
      while names != {}
        invariant names <= fileDiffs.Keys
        invariant FileNames(files) == Reportable(fileDiffs, fileDiffs.Keys - names)
        invariant Describes(files, fileDiffs)
      {
        var fName :| fName in names;
        ReportableAdd(fileDiffs, fileDiffs.Keys - names, fName);
        assert (fileDiffs.Keys - names) + {fName} == fileDiffs.Keys - (names - {fName});
        names := names - {fName};
        var lines := fileDiffs[fName];
        if |lines| == 0 {
          continue;
        }
        var summary := Summarize(fName, lines);
        DescribesAppend(files, fileDiffs, summary);
        files := files + [summary];
      }
    }
  }
}
