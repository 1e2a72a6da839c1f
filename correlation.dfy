/**
 * What `CoverageReporter._parse` computes, as functions of the diff, the
 * report and the base repository path: for every file entry, the map from
 * each added statement line to its covered flag.
 */
module Correlation {
  import opened Wrappers
  import opened Diff
  import opened Clover
  import opened Totals

  /** The tracked part of a set of candidate lines, looked up under `name`. */
  function Track(lines: set<int>, doc: seq<LineRecord>, name: string): (r: map<int, bool>)
    ensures r.Keys <= lines
  {
    map l | l in lines && Classify(doc, name, l).Some? :: Classify(doc, name, l).value
  }

  /**
   * A candidate becomes a key exactly when its classification finds a
   * statement record, and its value is that record's covered flag.
   */
  lemma TrackExactly(lines: set<int>, doc: seq<LineRecord>, name: string, l: int)
    ensures l in Track(lines, doc, name) <==> l in lines && Classify(doc, name, l).Some?
    ensures l in Track(lines, doc, name) ==> Track(lines, doc, name)[l] == Classify(doc, name, l).value
  {
  }

  /** The per-file map `_parse` stores for one file entry. */
  function TrackedLines(fd: FileDiff, doc: seq<LineRecord>, basePath: string): map<int, bool>
  {
    Track(AddedLines(fd), doc, basePath + fd.destination)
  }

  /** `file_diffs` after processing the file entries in order; a later entry for a name replaces an earlier one. */
  function Correlate(diffs: seq<FileDiff>, doc: seq<LineRecord>, basePath: string): map<string, map<int, bool>>
  {
    if diffs == [] then map[]
    else
      var last := diffs[|diffs| - 1];
      Correlate(diffs[..|diffs| - 1], doc, basePath)[last.destination := TrackedLines(last, doc, basePath)]
  }

  /** The destination names of the file entries. */
  function Destinations(diffs: seq<FileDiff>): set<string>
  {
    set i | 0 <= i < |diffs| :: diffs[i].destination
  }

  /** Adding one candidate line either adds it with its covered flag or changes nothing. */
  lemma TrackInsert(lines: set<int>, doc: seq<LineRecord>, name: string, l: int)
    ensures Classify(doc, name, l).None? ==> Track(lines + {l}, doc, name) == Track(lines, doc, name)
    ensures Classify(doc, name, l).Some? ==>
      Track(lines + {l}, doc, name) == Track(lines, doc, name)[l := Classify(doc, name, l).value]
  {
    var a, b := Track(lines + {l}, doc, name), Track(lines, doc, name);
    if Classify(doc, name, l).None? {
      assert a.Keys == b.Keys;
    } else {
      assert a.Keys == b.Keys + {l};
    }
  }

  /** Every file entry of the diff has an entry in the result, even one with no tracked line, and nothing else does. */
  lemma {:induction false} CorrelateKeys(diffs: seq<FileDiff>, doc: seq<LineRecord>, basePath: string)
    ensures Correlate(diffs, doc, basePath).Keys == Destinations(diffs)
  {
    if diffs != [] {
      var init := diffs[..|diffs| - 1];
      CorrelateKeys(init, doc, basePath);
      assert Destinations(diffs) == Destinations(init) + {diffs[|diffs| - 1].destination} by {
        forall n | n in Destinations(diffs) ensures n in Destinations(init) + {diffs[|diffs| - 1].destination} {
          var i :| 0 <= i < |diffs| && diffs[i].destination == n;
          if i < |init| {
            assert init[i].destination == n;
          }
        }
        forall n | n in Destinations(init) ensures n in Destinations(diffs) {
          var i :| 0 <= i < |init| && init[i].destination == n;
          assert diffs[i].destination == n;
        }
      }
    }
  }

  /** The entry for a name is the one computed for the LAST file entry with that name. */
  lemma {:induction false} CorrelateLastWins(diffs: seq<FileDiff>, doc: seq<LineRecord>, basePath: string, j: nat)
    requires j < |diffs|
    requires forall k :: j < k < |diffs| ==> diffs[k].destination != diffs[j].destination
    ensures diffs[j].destination in Correlate(diffs, doc, basePath)
    ensures Correlate(diffs, doc, basePath)[diffs[j].destination] == TrackedLines(diffs[j], doc, basePath)
  {
    if j < |diffs| - 1 {
      var init := diffs[..|diffs| - 1];
      assert init[j] == diffs[j];
      forall k | j < k < |init| ensures init[k].destination != init[j].destination {
        assert init[k] == diffs[k];
      }
      CorrelateLastWins(init, doc, basePath, j);
    }
  }

  /** File entry `j` is the last one with its destination name. */
  ghost predicate LastEntryFor(diffs: seq<FileDiff>, j: int)
  {
    0 <= j < |diffs| && forall k :: j < k < |diffs| ==> diffs[k].destination != diffs[j].destination
  }

  /** The whole shape of the result: one entry per name, each from the last file entry with that name. */
  lemma CorrelateShape(diffs: seq<FileDiff>, doc: seq<LineRecord>, basePath: string)
    ensures Correlate(diffs, doc, basePath).Keys == Destinations(diffs)
    ensures forall j :: LastEntryFor(diffs, j) ==>
      Correlate(diffs, doc, basePath)[diffs[j].destination] == TrackedLines(diffs[j], doc, basePath)
  {
    CorrelateKeys(diffs, doc, basePath);
    forall j | LastEntryFor(diffs, j)
      ensures Correlate(diffs, doc, basePath)[diffs[j].destination] == TrackedLines(diffs[j], doc, basePath)
    {
      CorrelateLastWins(diffs, doc, basePath, j);
    }
  }

  /**
   * Every key of a file's map is a line added by some file entry with that
   * name, and the first report record at `basePath + name` and that line is a
   * statement, whose count decides the flag.
   */
  lemma {:induction false} CorrelateSound(diffs: seq<FileDiff>, doc: seq<LineRecord>, basePath: string, name: string, l: int)
    requires name in Correlate(diffs, doc, basePath) && l in Correlate(diffs, doc, basePath)[name]
    ensures exists j :: 0 <= j < |diffs| && diffs[j].destination == name && l in AddedLines(diffs[j])
    ensures exists i ::
      && IsFirstMatch(doc, basePath + name, l, i)
      && doc[i].kind == Statement
      && (Correlate(diffs, doc, basePath)[name][l] <==> doc[i].count > 0)
  {
    var init := diffs[..|diffs| - 1];
    var last := diffs[|diffs| - 1];
    if name == last.destination {
      var i := FirstMatch(doc, basePath + name, l).value;
      assert IsFirstMatch(doc, basePath + name, l, i);
    } else {
      CorrelateSound(init, doc, basePath, name, l);
      var j :| 0 <= j < |init| && init[j].destination == name && l in AddedLines(init[j]);
      assert diffs[j] == init[j];
    }
  }

  /**
   * Only ADDED segments contribute: a tracked line is the destination of a line
   * of an ADDED segment of that file entry, so a line that occurs only in
   * REMOVED or CONTEXT segments is never a key.
   */
  lemma OnlyAddedTracked(fd: FileDiff, doc: seq<LineRecord>, basePath: string, l: int)
    requires l in TrackedLines(fd, doc, basePath)
    ensures exists h, s, k :: AddedAt(fd, h, s, k, l)
  {
    AddedLinesExactly(fd, l);
  }

  /**
   * An added line is tracked with flag `c` exactly when its first report
   * record is a statement covered exactly when `c`; with no record, or a
   * non-statement first record, it is absent rather than uncovered.
   */
  lemma TrackedLinesExactly(fd: FileDiff, doc: seq<LineRecord>, basePath: string, l: int)
    requires exists h, s, k :: AddedAt(fd, h, s, k, l)
    ensures l in TrackedLines(fd, doc, basePath) <==> Classify(doc, basePath + fd.destination, l).Some?
    ensures l in TrackedLines(fd, doc, basePath) ==>
      TrackedLines(fd, doc, basePath)[l] == Classify(doc, basePath + fd.destination, l).value
  {
    AddedLinesExactly(fd, l);
  }

  /** An added statement line executed zero times is tracked as uncovered. */
  lemma ZeroCountTrackedUncovered(fd: FileDiff, doc: seq<LineRecord>, basePath: string, l: int, i: nat)
    requires exists h, s, k :: AddedAt(fd, h, s, k, l)
    requires IsFirstMatch(doc, basePath + fd.destination, l, i)
    requires doc[i].kind == Statement && doc[i].count == 0
    ensures l in TrackedLines(fd, doc, basePath) && !TrackedLines(fd, doc, basePath)[l]
  {
    AddedLinesExactly(fd, l);
    ClassifyByFirstRecord(doc, basePath + fd.destination, l, i);
  }

  /** The flag the source computes as written for a found statement record: always covered. */
  function ClassifyAsWritten(doc: seq<LineRecord>, name: string, num: int): Option<bool>
  {
    match Lookup(doc, name, num)
    case None => None
    case Some(r) => if r.kind != Statement then None else Some(CoveredAsWritten(r))
  }

  /** `added_lines` as the source computes it, with the Python 2 comparison at coverage.py:51. */
  function TrackAsWritten(lines: set<int>, doc: seq<LineRecord>, name: string): map<int, bool>
  {
    map l | l in lines && ClassifyAsWritten(doc, name, l).Some? :: ClassifyAsWritten(doc, name, l).value
  }

  /**
   * As written, the same lines are tracked as intended, but every one of them
   * is marked covered: no file ever lists an uncovered line.
   */
  lemma AsWrittenNeverUncovered(lines: set<int>, doc: seq<LineRecord>, name: string)
    ensures TrackAsWritten(lines, doc, name).Keys == Track(lines, doc, name).Keys
    ensures UncoveredLines(TrackAsWritten(lines, doc, name)) == {}
    ensures CoveredLines(TrackAsWritten(lines, doc, name)) == Track(lines, doc, name).Keys
  {
    var a, b := TrackAsWritten(lines, doc, name), Track(lines, doc, name);
    assert a.Keys == b.Keys;
  }

  /**
   * When no report record carries the name `basePath + destination` (a wrong
   * or missing prefix, say), the file's map is empty, not an error.
   */
  lemma PrefixMismatchEmpty(fd: FileDiff, doc: seq<LineRecord>, basePath: string)
    requires forall i :: 0 <= i < |doc| ==> doc[i].fileName != basePath + fd.destination
    ensures TrackedLines(fd, doc, basePath) == map[]
  {
  }
}
