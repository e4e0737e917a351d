/**
 * The rows both status views list: one per denomination, with its count and the
 * value of those notes, and the sum of the value column.
 */
module Status {
  import opened Inventory

  /** One row of the status report: a denomination, its count and their product. */
  datatype Line = Line(denom: int, count: int, value: int)

  /** Sum of the `value` column. */
  function LinesTotal(lines: seq<Line>): int
  {
    if lines == [] then 0 else LinesTotal(lines[..|lines| - 1]) + lines[|lines| - 1].value
  }

  /** The report row of denomination `d`: its count and the value of those notes. */
  function Row(cash: Cash, d: int): (l: Line)
    requires d in cash
    ensures l.denom == d && l.count == cash[d]
    ensures l.value == l.denom * l.count
  {
    Line(d, cash[d], d * cash[d])
  }

  /** The value column of the rows for `ds` adds up to the value of the notes in `ds`. */
  lemma {:induction false} LinesTotalOfRows(cash: Cash, ds: seq<int>, lines: seq<Line>)
    requires Stocked(cash, ds) && |lines| == |ds|
    requires forall k :: 0 <= k < |ds| ==> lines[k] == Row(cash, ds[k])
    ensures LinesTotal(lines) == SumValue(cash, ds)
    decreases |ds|
  {
    if ds != [] {
      var n := |ds| - 1;
      LinesTotalOfRows(cash, ds[..n], lines[..n]);
      SumValueAppend(cash, ds[..n], ds[n]);
      assert ds[..n] + [ds[n]] == ds;
    }
  }

  /** Rows listed in the order of `Denominations` run from the largest denomination
      down, and every denomination held has its row. */
  lemma RowsInOrder(cash: Cash, lines: seq<Line>)
    requires |lines| == |Denominations(cash)|
    requires forall k :: 0 <= k < |lines| ==> lines[k] == Row(cash, Denominations(cash)[k])
    ensures forall i, j :: 0 <= i < j < |lines| ==> lines[i].denom > lines[j].denom
    ensures forall d :: d in cash ==> exists k :: 0 <= k < |lines| && lines[k].denom == d
  {
    var ds := Denominations(cash);
    forall d | d in cash ensures exists k :: 0 <= k < |lines| && lines[k].denom == d {
      assert d in ds;
      var k :| 0 <= k < |ds| && ds[k] == d;
      assert lines[k].denom == d;
    }
  }
}
