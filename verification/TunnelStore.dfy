/** The `tunnel_assignments` table of one router, as the persistence store keeps it:
    rows are only ever appended or retired. Text columns stand for their content after the
    stripping that the code applies at every use; a missing or blank one is `None`. */
module TunnelStore {
  import opened Prelude

  datatype Row = Row(
    role: string,
    profile: string,
    locator: Option<string>,
    policyWg: Option<string>,
    desired: bool,
    retired: bool)

  /** Rows that the clearing statement touches. */
  predicate Live(row: Row, role: string) {
    row.role == role && !row.retired
  }

  predicate Wanted(row: Row, role: string) {
    Live(row, role) && row.desired
  }

  /** The newest live row that is wanted active. */
  function Active(rows: seq<Row>, role: string): (r: Option<Row>)
    ensures r.Some? ==> r.value in rows && Wanted(r.value, role)
  {
    if rows == [] then None
    else
      var last := rows[|rows| - 1];
      if Wanted(last, role) then Some(last) else Active(rows[..|rows| - 1], role)
  }

  function LiveRows(rows: seq<Row>, role: string): seq<Row> {
    if rows == [] then []
    else
      var last := rows[|rows| - 1];
      LiveRows(rows[..|rows| - 1], role) + (if Live(last, role) then [last] else [])
  }

  /** Retires every live row of the role. */
  function Clear(rows: seq<Row>, role: string): (r: seq<Row>)
    ensures |r| == |rows|
  {
    if rows == [] then []
    else
      var last := rows[|rows| - 1];
      Clear(rows[..|rows| - 1], role)
      + [if Live(last, role) then last.(desired := false, retired := true) else last]
  }

  /** The interface an assignment is bound to: locator, then policy metadata. */
  function OwnWg(row: Row): Option<string> {
    if row.locator.Some? then row.locator else row.policyWg
  }

  /** The interface an assignment resolves to, with profile metadata as the last resort. */
  function Resolve(row: Row, metadataWg: Option<string>): Option<string> {
    if OwnWg(row).Some? then OwnWg(row) else metadataWg
  }

  predicate NewestAt(rows: seq<Row>, role: string, i: int) {
    0 <= i < |rows| && Wanted(rows[i], role) && forall j :: i < j < |rows| ==> !Wanted(rows[j], role)
  }

  /** The active assignment is the newest row of the role that is live and wanted, and there
      is none exactly if there is no such row. */
  lemma {:induction false} ActiveIsNewest(rows: seq<Row>, role: string)
    ensures Active(rows, role).None? ==> forall i :: 0 <= i < |rows| ==> !Wanted(rows[i], role)
    ensures Active(rows, role).Some? ==> exists i :: NewestAt(rows, role, i) && rows[i] == Active(rows, role).value
  {
    if rows != [] {
      var n := |rows| - 1;
      if Wanted(rows[n], role) {
        assert NewestAt(rows, role, n);
      } else {
        ActiveIsNewest(rows[..n], role);
        forall i | NewestAt(rows[..n], role, i) ensures NewestAt(rows, role, i) && rows[i] == rows[..n][i] { }
      }
    }
  }

  /** Where an assignment's interface comes from: its locator, else its policy metadata, else the
      profile's metadata. */
  lemma ResolveMeans(row: Row, metadataWg: Option<string>)
    ensures row.locator.Some? ==> Resolve(row, metadataWg) == row.locator
    ensures row.locator.None? && row.policyWg.Some? ==> Resolve(row, metadataWg) == row.policyWg
    ensures row.locator.None? && row.policyWg.None? ==> Resolve(row, metadataWg) == metadataWg
  {
  }

  /** Clearing a role leaves it with no live row and so no active assignment. */
  lemma {:induction false} ClearEmpties(rows: seq<Row>, role: string)
    ensures LiveRows(Clear(rows, role), role) == []
    ensures Active(Clear(rows, role), role) == None
  {
    if rows != [] {
      ClearEmpties(rows[..|rows| - 1], role);
      var c := Clear(rows, role);
      assert c[..|c| - 1] == Clear(rows[..|rows| - 1], role);
    }
  }

  /** Clearing one role does not change any other. */
  lemma {:induction false} ClearKeepsOthers(rows: seq<Row>, role: string, other: string)
    requires role != other
    ensures Active(Clear(rows, role), other) == Active(rows, other)
    ensures LiveRows(Clear(rows, role), other) == LiveRows(rows, other)
  {
    if rows != [] {
      ClearKeepsOthers(rows[..|rows| - 1], role, other);
      var c := Clear(rows, role);
      assert c[..|c| - 1] == Clear(rows[..|rows| - 1], role);
    }
  }

  /** An active assignment is among the rows that clearing counts. */
  lemma {:induction false} ActiveIsLive(rows: seq<Row>, role: string)
    ensures Active(rows, role).Some? ==> |LiveRows(rows, role)| > 0
  {
    if rows != [] {
      ActiveIsLive(rows[..|rows| - 1], role);
    }
  }

  lemma AppendRow(rows: seq<Row>, row: Row, role: string)
    ensures LiveRows(rows + [row], role)
         == LiveRows(rows, role) + (if Live(row, role) then [row] else [])
    ensures Active(rows + [row], role)
         == if Live(row, role) && row.desired then Some(row) else Active(rows, role)
  {
    assert (rows + [row])[..|rows|] == rows;
  }
}
