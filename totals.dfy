/**
 * The counts and percentages `get_total_coverage` and `__str__` compute from
 * `file_diffs`. Python's float division is modelled as exact division on
 * reals.
 */
module Totals {

  /** The lines of one file's map that are marked covered. */
  function CoveredLines(lines: map<int, bool>): set<int>
  {
    set l | l in lines && lines[l]
  }

  /** The lines of one file's map that are marked uncovered. */
  function UncoveredLines(lines: map<int, bool>): set<int>
  {
    set l | l in lines && !lines[l]
  }

  /** Covered and uncovered lines split a file's tracked lines. */
  lemma CoveredUncoveredSplit(lines: map<int, bool>)
    ensures CoveredLines(lines) !! UncoveredLines(lines)
    ensures CoveredLines(lines) + UncoveredLines(lines) == lines.Keys
    ensures |CoveredLines(lines)| + |UncoveredLines(lines)| == |lines|
  {
  }

  /** The sum of `w` over `keys`. */
  ghost function SumOver(w: map<string, nat>, keys: set<string>): nat
    requires keys <= w.Keys
    decreases keys
  {
    if keys == {} then 0 else var k :| k in keys; w[k] + SumOver(w, keys - {k})
  }

  /** The sum does not depend on which key is taken out first. */
  lemma {:induction false} SumOverRemove(w: map<string, nat>, keys: set<string>, k: string)
    requires keys <= w.Keys && k in keys
    ensures SumOver(w, keys) == w[k] + SumOver(w, keys - {k})
    decreases keys
  {
    var j :| j in keys && SumOver(w, keys) == w[j] + SumOver(w, keys - {j});
    if j != k {
      SumOverRemove(w, keys - {j}, k);
      SumOverRemove(w, keys - {k}, j);
      assert keys - {j} - {k} == keys - {k} - {j};
    }
  }

  /** A sum of terms each at most the corresponding term of another is at most that other sum. */
  lemma {:induction false} SumOverMonotone(v: map<string, nat>, w: map<string, nat>, keys: set<string>)
    requires keys <= v.Keys && keys <= w.Keys
    requires forall k :: k in keys ==> v[k] <= w[k]
    ensures SumOver(v, keys) <= SumOver(w, keys)
    decreases keys
  {
    if keys != {} {
      var k :| k in keys;
      SumOverRemove(v, keys, k);
      SumOverRemove(w, keys, k);
      SumOverMonotone(v, w, keys - {k});
    }
  }

  /** A sum of naturals is zero exactly when every term is. */
  lemma {:induction false} SumOverZero(w: map<string, nat>, keys: set<string>)
    requires keys <= w.Keys
    ensures SumOver(w, keys) == 0 <==> forall k :: k in keys ==> w[k] == 0
    decreases keys
  {
    if keys != {} {
      var k :| k in keys;
      SumOverRemove(w, keys, k);
      SumOverZero(w, keys - {k});
    }
  }

  /** Per-file tracked-line counts, `len(self.file_diffs[key])`. */
  ghost function TrackedCounts(fileDiffs: map<string, map<int, bool>>): map<string, nat>
  {
    map f | f in fileDiffs :: |fileDiffs[f]|
  }

  /** Per-file covered-line counts, the length of the filtered key list. */
  ghost function CoveredCounts(fileDiffs: map<string, map<int, bool>>): map<string, nat>
  {
    map f | f in fileDiffs :: |CoveredLines(fileDiffs[f])|
  }

  /** `total_lines` at the end of the loop of `get_total_coverage`. */
  ghost function TotalTracked(fileDiffs: map<string, map<int, bool>>): nat
  {
    SumOver(TrackedCounts(fileDiffs), fileDiffs.Keys)
  }

  /** `covered_lines` at the end of the loop of `get_total_coverage`. */
  ghost function TotalCovered(fileDiffs: map<string, map<int, bool>>): nat
  {
    SumOver(CoveredCounts(fileDiffs), fileDiffs.Keys)
  }

  /** Across all files, no more lines are covered than are tracked. */
  lemma CoveredAtMostTracked(fileDiffs: map<string, map<int, bool>>)
    ensures TotalCovered(fileDiffs) <= TotalTracked(fileDiffs)
  {
    forall f | f in fileDiffs ensures CoveredCounts(fileDiffs)[f] <= TrackedCounts(fileDiffs)[f] {
      CoveredUncoveredSplit(fileDiffs[f]);
    }
    SumOverMonotone(CoveredCounts(fileDiffs), TrackedCounts(fileDiffs), fileDiffs.Keys);
  }

  /** There are no tracked lines at all exactly when every file's map is empty. */
  lemma NoTrackedLines(fileDiffs: map<string, map<int, bool>>)
    ensures TotalTracked(fileDiffs) == 0 <==> forall f :: f in fileDiffs ==> fileDiffs[f] == map[]
  {
    SumOverZero(TrackedCounts(fileDiffs), fileDiffs.Keys);
    assert forall f :: f in fileDiffs ==> (TrackedCounts(fileDiffs)[f] == 0 <==> fileDiffs[f] == map[]);
  }

  /**
   * When every tracked line of every file is marked covered, as happens with
   * the comparison the source writes at coverage.py:51, the total is always
   * exactly 100.
   */
  lemma AllCoveredTotalFull(fileDiffs: map<string, map<int, bool>>)
    requires forall f :: f in fileDiffs ==> UncoveredLines(fileDiffs[f]) == {}
    ensures TotalCovered(fileDiffs) == TotalTracked(fileDiffs)
    ensures Percent(TotalCovered(fileDiffs), TotalTracked(fileDiffs)) == 100.0
  {
    forall f | f in fileDiffs ensures CoveredCounts(fileDiffs)[f] == TrackedCounts(fileDiffs)[f] {
      CoveredUncoveredSplit(fileDiffs[f]);
    }
    assert CoveredCounts(fileDiffs) == TrackedCounts(fileDiffs);
  }

  /** A coverage percentage: 100 for no tracked lines, else covered / total * 100. */
  function Percent(covered: nat, total: nat): (p: real)
    ensures total == 0 ==> p == 100.0
    ensures 0 < total ==> p * (total as real) == (covered as real) * 100.0
    ensures covered <= total ==> 0.0 <= p <= 100.0
    ensures covered <= total ==> (p == 100.0 <==> covered == total)
  {
    if total == 0 then 100.0 else (covered as real / total as real) * 100.0
  }

  /**
   * The per-file figure `__str__` prints, 100 times one minus the uncovered
   * fraction, is the covered fraction times 100.
   */
  lemma ComplementPercent(lines: map<int, bool>)
    requires |lines| > 0
    ensures (1.0 - (|UncoveredLines(lines)| as real / |lines| as real)) * 100.0
      == Percent(|CoveredLines(lines)|, |lines|)
  {
    CoveredUncoveredSplit(lines);
    var t, u, c := |lines| as real, |UncoveredLines(lines)| as real, |CoveredLines(lines)| as real;
    assert t == u + c;
    assert t / t == 1.0;
    assert (u + c) / t == u / t + c / t;
  }
}
