/** rq1_validation_pipeline.py: the hand-made golden standard of commit
    summaries, read row by row from the database (a parameter here) and
    turned into one column per key for the quantitative evaluation. */
module Rq1Validation {

  /** One row of the golden standard table. */
  datatype GoldenRow = GoldenRow(commitId: int, general: string, technical: string)

  /** The dictionary with keys `commit_ids`, `general` and `technical`. */
  datatype GoldenStandard = GoldenStandard(commitIds: seq<int>, general: seq<string>, technical: seq<string>)

  /** The rows the columns describe, read across; defined when the three
      columns have one length. */
  function Rows(g: GoldenStandard): (rows: seq<GoldenRow>)
    requires |g.general| == |g.commitIds| && |g.technical| == |g.commitIds|
    ensures |rows| == |g.commitIds|
    ensures forall i :: 0 <= i < |rows| ==> rows[i] == GoldenRow(g.commitIds[i], g.general[i], g.technical[i])
  {
    seq(|g.commitIds|, i requires 0 <= i < |g.commitIds| => GoldenRow(g.commitIds[i], g.general[i], g.technical[i]))
  }

  /** `retrieve_rq1_golden_standard`: the columns have one entry per row,
      in row order, so reading them across gives the rows back; no rows
      give three empty columns. */
  method RetrieveRq1GoldenStandard(rows: seq<GoldenRow>) returns (res: GoldenStandard)
    ensures |res.commitIds| == |rows| && |res.general| == |rows| && |res.technical| == |rows|
    ensures forall i :: 0 <= i < |rows| ==> res.commitIds[i] == rows[i].commitId
    ensures forall i :: 0 <= i < |rows| ==> res.general[i] == rows[i].general
    ensures forall i :: 0 <= i < |rows| ==> res.technical[i] == rows[i].technical
    ensures Rows(res) == rows
  {
    res := GoldenStandard([], [], []);
    var i := 0;
    while i < |rows|
      invariant 0 <= i <= |rows|
      invariant |res.commitIds| == i && |res.general| == i && |res.technical| == i
      invariant forall k :: 0 <= k < i ==> res.commitIds[k] == rows[k].commitId
      invariant forall k :: 0 <= k < i ==> res.general[k] == rows[k].general
      invariant forall k :: 0 <= k < i ==> res.technical[k] == rows[k].technical
    {
      var gs := rows[i];
      res := GoldenStandard(res.commitIds + [gs.commitId], res.general + [gs.general], res.technical + [gs.technical]);
      i := i + 1;
    }
  }
}
