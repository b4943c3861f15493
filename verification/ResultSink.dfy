/** The insert-only result table: the MERGE that publishes a row and the
    readback that classifies what the table holds for a result id. */
module ResultSink {
  import opened Wrappers
  import opened Ledger

  datatype SinkRow = SinkRow(runId: string, resultId: string, json: Payload)

  /** The row a run publishes. */
  function RowFor(out: Outcome, p: Payload): SinkRow {
    SinkRow(out.content.runId, out.content.resultId, p)
  }

  /** The rows stored under a result id. */
  function Matching(table: seq<SinkRow>, resultId: string): (m: seq<SinkRow>)
    ensures forall r :: r in m <==> r in table && r.resultId == resultId
  {
    if table == [] then []
    else if table[0].resultId == resultId then [table[0]] + Matching(table[1..], resultId)
    else Matching(table[1..], resultId)
  }

  /** MERGE ... WHEN NOT MATCHED THEN INSERT, as one atomic statement. */
  function Merge(table: seq<SinkRow>, row: SinkRow): seq<SinkRow> {
    if Matching(table, row.resultId) == [] then table + [row] else table
  }

  datatype Readback = Identical | Absent | Conflict

  /** The classification of the rows stored under one result id. */
  function Classify(table: seq<SinkRow>, row: SinkRow): Readback {
    var found := Matching(table, row.resultId);
    if found == [] then Absent
    else if found == [row] then Identical
    else Conflict
  }

  lemma {:induction false} MatchingAppend(table: seq<SinkRow>, row: SinkRow, resultId: string)
    ensures Matching(table + [row], resultId)
            == Matching(table, resultId) + if row.resultId == resultId then [row] else []
  {
    if table == [] {
      assert table + [row] == [row];
      assert [row][1..] == [];
    } else {
      MatchingAppend(table[1..], row, resultId);
      assert (table + [row])[1..] == table[1..] + [row];
    }
  }

  /** What the table holds under a result id, once there is something, no MERGE of
      any writer can change: publication is write-once. */
  lemma MergeNeverOverwrites(table: seq<SinkRow>, row: SinkRow, resultId: string)
    requires Matching(table, resultId) != []
    ensures Matching(Merge(table, row), resultId) == Matching(table, resultId)
  {
    MatchingAppend(table, row, resultId);
  }

  /** MERGEs of any writers, one after the other. */
  function MergeAll(table: seq<SinkRow>, rows: seq<SinkRow>): seq<SinkRow>
    decreases |rows|
  {
    if rows == [] then table else MergeAll(Merge(table, rows[0]), rows[1..])
  }

  predicate IsFirst(rows: seq<SinkRow>, i: nat, resultId: string) {
    i < |rows| && rows[i].resultId == resultId && forall j :: 0 <= j < i ==> rows[j].resultId != resultId
  }

  lemma {:induction false} LaterMerges(table: seq<SinkRow>, rows: seq<SinkRow>, resultId: string)
    requires Matching(table, resultId) != []
    ensures Matching(MergeAll(table, rows), resultId) == Matching(table, resultId)
    decreases |rows|
  {
    if rows != [] {
      MergeNeverOverwrites(table, rows[0], resultId);
      LaterMerges(Merge(table, rows[0]), rows[1..], resultId);
    }
  }

  lemma {:induction false} NoMerge(table: seq<SinkRow>, rows: seq<SinkRow>, resultId: string)
    requires forall r :: r in rows ==> r.resultId != resultId
    ensures Matching(MergeAll(table, rows), resultId) == Matching(table, resultId)
    decreases |rows|
  {
    if rows != [] {
      MatchingAppend(table, rows[0], resultId);
      NoMerge(Merge(table, rows[0]), rows[1..], resultId);
    }
  }

  lemma {:induction false} FirstMerge(table: seq<SinkRow>, rows: seq<SinkRow>, i: nat, resultId: string)
    requires Matching(table, resultId) == [] && IsFirst(rows, i, resultId)
    ensures Matching(MergeAll(table, rows), resultId) == [rows[i]]
    decreases |rows|
  {
    MatchingAppend(table, rows[0], resultId);
    if i == 0 {
      LaterMerges(Merge(table, rows[0]), rows[1..], resultId);
    } else {
      FirstMerge(Merge(table, rows[0]), rows[1..], i - 1, resultId);
    }
  }

  /** In a table that only MERGEs have written, a row is read back as identical exactly
      when it is the first that was merged under its result id, as absent exactly when
      none was, and as a conflict otherwise. So no result id is stored twice. */
  lemma FirstMergeWins(rows: seq<SinkRow>, row: SinkRow)
    ensures Classify(MergeAll([], rows), row) == Identical <==>
            exists i: nat :: IsFirst(rows, i, row.resultId) && rows[i] == row
    ensures Classify(MergeAll([], rows), row) == Absent <==> forall r :: r in rows ==> r.resultId != row.resultId
    ensures |Matching(MergeAll([], rows), row.resultId)| <= 1
  {
    if forall r :: r in rows ==> r.resultId != row.resultId {
      NoMerge([], rows, row.resultId);
      assert forall i: nat :: i < |rows| ==> rows[i] in rows;
    } else {
      var i := FirstOf(rows, row.resultId);
      assert forall j: nat :: IsFirst(rows, j, row.resultId) ==> j == i;
      FirstMerge([], rows, i, row.resultId);
    }
  }

  lemma {:induction false} FirstOf(rows: seq<SinkRow>, resultId: string) returns (i: nat)
    requires exists r :: r in rows && r.resultId == resultId
    ensures IsFirst(rows, i, resultId)
  {
    if rows[0].resultId == resultId {
      i := 0;
    } else {
      i := FirstOf(rows[1..], resultId);
      i := i + 1;
    }
  }

  /** After a MERGE the result id is present, and the readback reports the merged
      row as identical unless another writer's row was there first. */
  lemma MergeThenReadback(table: seq<SinkRow>, row: SinkRow)
    ensures Classify(Merge(table, row), row) != Absent
    ensures Classify(Merge(table, row), row) == Identical <==>
            Classify(table, row) == Absent || Classify(table, row) == Identical
  {
    MatchingAppend(table, row, row.resultId);
  }

  /** An identical readback is stable under every later MERGE. */
  lemma IdenticalIsStable(table: seq<SinkRow>, row: SinkRow, other: SinkRow)
    requires Classify(table, row) == Identical
    ensures Classify(Merge(table, other), row) == Identical
  {
    MergeNeverOverwrites(table, other, row.resultId);
  }

  /** What a publication call returns. Ambiguous is the source's
      PublicationVerificationError; it carries the readback state when there is one. */
  datatype Publication = Published | Ambiguous(state: Option<Readback>) | Rejected

  /** What a readback reports. */
  function ReadOf(table: seq<SinkRow>, row: SinkRow, readFails: bool): Publication {
    if readFails then Ambiguous(None)
    else match Classify(table, row)
      case Identical => Published
      case other => Ambiguous(Some(other))
  }

  class ResultTable {
    var rows: seq<SinkRow>

    constructor ()
      ensures rows == []
    {
      rows := [];
    }

    /** One MERGE of immutableResultMergeSQL. */
    method MergeRow(row: SinkRow)
      modifies this
      ensures rows == Merge(old(rows), row)
      ensures rows == if exists r :: r in old(rows) && r.resultId == row.resultId then old(rows) else old(rows) + [row]
    {
      ghost var found := Matching(rows, row.resultId);
      assert found != [] ==> found[0] in found;
      assert forall r :: r in found <==> r in rows && r.resultId == row.resultId;
      if Matching(rows, row.resultId) == [] {
        rows := rows + [row];
      }
    }

    /** The readback loop: it stops at the first row that differs and otherwise
        counts. `readFails` stands for an error of the query or of a scan. */
    method VerifyPayload(row: SinkRow, readFails: bool) returns (res: Publication)
      ensures res == ReadOf(rows, row, readFails)
      ensures var found := Matching(rows, row.resultId);
              res == if readFails then Ambiguous(None)
                     else if found == [row] then Published
                     else Ambiguous(Some(if found == [] then Absent else Conflict))
    {
      if readFails {
        return Ambiguous(None);
      }
      var found := Matching(rows, row.resultId);
      var count := 0;
      while count < |found|
        invariant count <= |found|
        invariant forall k :: 0 <= k < count ==> found[k] == row
      {
        var stored := found[count];
        assert stored in found;
        count := count + 1;
        if stored.runId != row.runId || stored.json != row.json {
          return Ambiguous(Some(Conflict));
        }
      }
      if count == 0 {
        return Ambiguous(Some(Absent));
      }
      if count > 1 {
        return Ambiguous(Some(Conflict));
      }
      assert found == [row];
      return Published;
    }

    /** Publish: preconditions, MERGE, readback. `configured` says that there is a sink,
        `destined` that the outcome's reference names it. A MERGE that fails leaves the table as it is; it may still
        land later. */
    method Publish(out: Outcome, p: Payload, configured: bool, destined: bool, mergeOk: bool, readFails: bool)
      returns (res: Publication)
      modifies this
      ensures var refused := !configured || out.content.ref.None? || !destined || !ValidPayload(out, p);
              rows == (if !refused && mergeOk then Merge(old(rows), RowFor(out, p)) else old(rows)) &&
              res == if refused then Rejected
                     else if !mergeOk then Ambiguous(None)
                     else ReadOf(rows, RowFor(out, p), readFails)
    {
      if !configured || out.content.ref.None? || !destined || !ValidPayload(out, p) {
        return Rejected;
      }
      if !mergeOk {
        return Ambiguous(None);
      }
      MergeRow(RowFor(out, p));
      res := VerifyPayload(RowFor(out, p), readFails);
    }

    /** Verify: readback only, and without the test of the reference; the table is not in
        its frame. */
    method Verify(out: Outcome, p: Payload, configured: bool, readFails: bool) returns (res: Publication)
      ensures res == if !configured || out.content.ref.None? || !ValidPayload(out, p) then Rejected
                     else ReadOf(rows, RowFor(out, p), readFails)
    {
      if !configured || out.content.ref.None? || !ValidPayload(out, p) {
        return Rejected;
      }
      res := VerifyPayload(RowFor(out, p), readFails);
    }
  }

  /** A publication whose MERGE ran is reported as published exactly when its own row is
      stored alone under its result id, and as a conflict otherwise; never as absent. */
  lemma PublicationIsSettled(table: seq<SinkRow>, row: SinkRow)
    ensures var res := ReadOf(Merge(table, row), row, false);
            (res == Published <==> Matching(Merge(table, row), row.resultId) == [row]) &&
            (res == Published || res == Ambiguous(Some(Conflict)))
  {
    MergeThenReadback(table, row);
  }
}
