/**
 * The Clover statement-coverage report, already parsed: every
 * `file[@name]/line[@num][@type][@count]` element becomes one record, in
 * document order.
 */
module Clover {
  import opened Wrappers

  /** One `line` element with the `name` of its enclosing `file` element. */
  datatype LineRecord = LineRecord(fileName: string, num: int, kind: string, count: nat)

  /** The only record type that counts toward coverage. */
  const Statement: string := "stmt"

  /** The record would be selected by the query `//file[@name='name']/line[@num=num]`. */
  predicate Matches(r: LineRecord, name: string, num: int)
  {
    r.fileName == name && r.num == num
  }

  /** Record `i` is the first record, in document order, that matches `name` and `num`. */
  ghost predicate IsFirstMatch(doc: seq<LineRecord>, name: string, num: int, i: int)
  {
    && 0 <= i < |doc|
    && Matches(doc[i], name, num)
    && forall j :: 0 <= j < i ==> !Matches(doc[j], name, num)
  }

  /** The position of the first record, in document order, that matches `name` and `num`. */
  function FirstMatch(doc: seq<LineRecord>, name: string, num: int): (r: Option<nat>)
    ensures r.None? <==> forall i :: 0 <= i < |doc| ==> !Matches(doc[i], name, num)
    ensures r.Some? ==> IsFirstMatch(doc, name, num, r.value)
  {
    if doc == [] then None
    else if Matches(doc[0], name, num) then Some(0)
    else match FirstMatch(doc[1..], name, num)
      case None => None
      case Some(i) => Some(i + 1)
  }

  /** The record `covered_line[0]` picks from the query result, if the result is not empty. */
  function Lookup(doc: seq<LineRecord>, name: string, num: int): (r: Option<LineRecord>)
    ensures r.None? <==> FirstMatch(doc, name, num).None?
    ensures r.Some? ==> Matches(r.value, name, num)
  {
    match FirstMatch(doc, name, num)
    case None => None
    case Some(i) => Some(doc[i])
  }

  /**
   * Whether a statement record counts as covered. The source compares the
   * `count` attribute, a string, with the integer 0; the evident intent is an
   * execution count above zero, which is what is modelled here.
   */
  predicate Covered(r: LineRecord)
  {
    r.count > 0
  }

  /**
   * How a diff line is classified against the report: absent (no record, or
   * the first record is not a statement), or a tracked line with its covered
   * flag.
   */
  function Classify(doc: seq<LineRecord>, name: string, num: int): Option<bool>
  {
    match Lookup(doc, name, num)
    case None => None
    case Some(r) => if r.kind != Statement then None else Some(Covered(r))
  }

  /**
   * The first matching record alone decides the classification: when record
   * `i` is the first to match, the line is tracked exactly when record `i` is
   * a statement, and then covered exactly when its count is positive; when no
   * record matches, the line is not tracked.
   */
  lemma ClassifyByFirstRecord(doc: seq<LineRecord>, name: string, num: int, i: nat)
    requires IsFirstMatch(doc, name, num, i)
    ensures Classify(doc, name, num).Some? <==> doc[i].kind == Statement
    ensures Classify(doc, name, num).Some? ==> (Classify(doc, name, num).value <==> doc[i].count > 0)
  {
  }

  /** A line for which the report holds no record is never tracked, so never counted as uncovered. */
  lemma UnmatchedNotTracked(doc: seq<LineRecord>, name: string, num: int)
    requires forall i :: 0 <= i < |doc| ==> !Matches(doc[i], name, num)
    ensures Classify(doc, name, num) == None
  {
  }

  /**
   * The covered test as the source writes it: under Python 2 a string
   * attribute always compares greater than the integer 0, so every found
   * statement reads as covered.
   */
  predicate CoveredAsWritten(r: LineRecord)
  {
    true
  }

  /** A statement executed zero times: covered as written, uncovered as intended. */
  lemma ZeroCountCoveredAsWritten()
    ensures var r := LineRecord("foo.py", 10, Statement, 0);
      CoveredAsWritten(r) && !Covered(r)
  {
  }
}
