/**
 * The pull-request diff as the review tool's API returns it: a list of file
 * entries, each with hunks, each hunk with typed segments, each segment with
 * line records carrying a destination line number.
 */
module Diff {

  /** The `type` of a segment. */
  datatype SegmentType = Added | Removed | Context

  /** A line record of a segment; only its destination line number is used. */
  datatype DiffLine = DiffLine(destination: int)

  datatype Segment = Segment(kind: SegmentType, lines: seq<DiffLine>)

  datatype Hunk = Hunk(segments: seq<Segment>)

  /** One entry of `diffs`; `destination` is `destination.toString`. */
  datatype FileDiff = FileDiff(destination: string, hunks: seq<Hunk>)

  /** The destination line numbers of a run of line records. */
  function LineNumbers(lines: seq<DiffLine>): set<int>
  {
    if lines == [] then {} else LineNumbers(lines[..|lines| - 1]) + {lines[|lines| - 1].destination}
  }

  /** The lines a segment adds: all its lines if it is ADDED, none otherwise. */
  function SegmentAdds(seg: Segment): set<int>
  {
    if seg.kind == Added then LineNumbers(seg.lines) else {}
  }

  /** The lines added by a run of segments. */
  function SegmentsAdds(segs: seq<Segment>): set<int>
  {
    if segs == [] then {} else SegmentsAdds(segs[..|segs| - 1]) + SegmentAdds(segs[|segs| - 1])
  }

  /** The lines added by a run of hunks. */
  function HunksAdds(hunks: seq<Hunk>): set<int>
  {
    if hunks == [] then {} else HunksAdds(hunks[..|hunks| - 1]) + SegmentsAdds(hunks[|hunks| - 1].segments)
  }

  /** The lines a file entry adds. */
  function AddedLines(fd: FileDiff): set<int>
  {
    HunksAdds(fd.hunks)
  }

  /** Line `l` is the destination of line `k` of segment `s` of hunk `h`, and that segment is ADDED. */
  ghost predicate AddedAt(fd: FileDiff, h: int, s: int, k: int, l: int)
  {
    && 0 <= h < |fd.hunks|
    && 0 <= s < |fd.hunks[h].segments|
    && fd.hunks[h].segments[s].kind == Added
    && 0 <= k < |fd.hunks[h].segments[s].lines|
    && fd.hunks[h].segments[s].lines[k].destination == l
  }

  lemma {:induction false} LineNumbersMember(lines: seq<DiffLine>, l: int)
    ensures l in LineNumbers(lines) <==> exists k :: 0 <= k < |lines| && lines[k].destination == l
  {
    if lines != [] {
      var init := lines[..|lines| - 1];
      LineNumbersMember(init, l);
      if l in LineNumbers(init) {
        var k :| 0 <= k < |init| && init[k].destination == l;
        assert lines[k].destination == l;
      }
      if exists k :: 0 <= k < |lines| && lines[k].destination == l {
        var k :| 0 <= k < |lines| && lines[k].destination == l;
        if k < |init| {
          assert init[k].destination == l;
        }
      }
    }
  }

  lemma {:induction false} SegmentsAddsMember(segs: seq<Segment>, l: int)
    ensures l in SegmentsAdds(segs) <==> exists s :: 0 <= s < |segs| && l in SegmentAdds(segs[s])
  {
    if segs != [] {
      var init := segs[..|segs| - 1];
      SegmentsAddsMember(init, l);
      if l in SegmentsAdds(init) {
        var s :| 0 <= s < |init| && l in SegmentAdds(init[s]);
        assert segs[s] == init[s];
      }
      if exists s :: 0 <= s < |segs| && l in SegmentAdds(segs[s]) {
        var s :| 0 <= s < |segs| && l in SegmentAdds(segs[s]);
        if s < |init| {
          assert segs[s] == init[s];
        }
      }
    }
  }

  lemma {:induction false} HunksAddsMember(hunks: seq<Hunk>, l: int)
    ensures l in HunksAdds(hunks) <==> exists h :: 0 <= h < |hunks| && l in SegmentsAdds(hunks[h].segments)
  {
    if hunks != [] {
      var init := hunks[..|hunks| - 1];
      HunksAddsMember(init, l);
      if l in HunksAdds(init) {
        var h :| 0 <= h < |init| && l in SegmentsAdds(init[h].segments);
        assert hunks[h] == init[h];
      }
      if exists h :: 0 <= h < |hunks| && l in SegmentsAdds(hunks[h].segments) {
        var h :| 0 <= h < |hunks| && l in SegmentsAdds(hunks[h].segments);
        if h < |init| {
          assert hunks[h] == init[h];
        }
      }
    }
  }

  /**
   * A line is added by a file entry exactly when it is the destination of some
   * line of some ADDED segment of that entry; REMOVED and CONTEXT segments
   * contribute nothing.
   */
  lemma AddedLinesExactly(fd: FileDiff, l: int)
    ensures l in AddedLines(fd) <==> exists h, s, k :: AddedAt(fd, h, s, k, l)
  {
    HunksAddsMember(fd.hunks, l);
    if l in AddedLines(fd) {
      var h :| 0 <= h < |fd.hunks| && l in SegmentsAdds(fd.hunks[h].segments);
      SegmentsAddsMember(fd.hunks[h].segments, l);
      var s :| 0 <= s < |fd.hunks[h].segments| && l in SegmentAdds(fd.hunks[h].segments[s]);
      LineNumbersMember(fd.hunks[h].segments[s].lines, l);
      var k :| 0 <= k < |fd.hunks[h].segments[s].lines| && fd.hunks[h].segments[s].lines[k].destination == l;
      assert AddedAt(fd, h, s, k, l);
    }
    if exists h, s, k :: AddedAt(fd, h, s, k, l) {
      var h, s, k :| AddedAt(fd, h, s, k, l);
      LineNumbersMember(fd.hunks[h].segments[s].lines, l);
      SegmentsAddsMember(fd.hunks[h].segments, l);
    }
  }
}
