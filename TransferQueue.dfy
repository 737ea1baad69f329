/** The transfer status table (adb_copy/ui/transfer_queue_widget.py): an
    ordered list of rows, one per queued copy, whose status moves from
    waiting to transferring to completed or failed as the worker reports
    progress by task id. Start times come from a clock given as a
    parameter. */
module TransferQueue {

  /** The status column. The widget compares the displayed (translated)
      text; the model compares the status itself. */
  datatype Status = Waiting | Transferring | Completed | Failed

  /** The time column: "-" until the copy ends, the elapsed time once it
      completes with a recorded start, "Failed" after a failure. */
  datatype TimeCell = NoTime | Elapsed(ticks: int) | FailedTime

  datatype Row = Row(
    status: Status,
    taskId: int,
    fileSize: int,
    filename: string,
    source: string,
    destination: string,
    time: TimeCell)

  // ---------------------------------------------------------------------
  // Specification functions

  /** The index of the first row carrying `taskId`, or -1. */
  function FirstRow(rows: seq<Row>, taskId: int): (r: int)
    ensures -1 <= r < |rows|
    ensures r == -1 <==> forall k :: 0 <= k < |rows| ==> rows[k].taskId != taskId
    ensures r >= 0 ==> rows[r].taskId == taskId && forall k :: 0 <= k < r ==> rows[k].taskId != taskId
  {
    if |rows| == 0 then -1
    else if rows[0].taskId == taskId then 0
    else
      var r := FirstRow(rows[1..], taskId);
      if r == -1 then -1 else r + 1
  }

  function Count(rows: seq<Row>, st: Status): nat {
    if |rows| == 0 then 0
    else Count(rows[..|rows| - 1], st) + (if rows[|rows| - 1].status == st then 1 else 0)
  }

  /** The positions of the rows with status `st`. */
  function IndicesWith(rows: seq<Row>, st: Status): set<int> {
    set k | 0 <= k < |rows| && rows[k].status == st
  }

  /** The rows whose position is not in `drop`, in their order. */
  function Without(rows: seq<Row>, drop: set<int>): seq<Row> {
    if |rows| == 0 then []
    else Without(rows[..|rows| - 1], drop) + (if |rows| - 1 in drop then [] else [rows[|rows| - 1]])
  }

  /** The rows whose status is not `st`, in their order. */
  function OtherThan(rows: seq<Row>, st: Status): seq<Row> {
    if |rows| == 0 then []
    else OtherThan(rows[..|rows| - 1], st) + (if rows[|rows| - 1].status == st then [] else [rows[|rows| - 1]])
  }

  /** The values held by a sequence of positions. */
  function Members(indices: seq<int>): set<int> {
    set x | x in indices
  }

  predicate StrictlyIncreasing(indices: seq<int>) {
    forall i, j :: 0 <= i < j < |indices| ==> indices[i] < indices[j]
  }

  // ---------------------------------------------------------------------
  // Lemmas about removal

  /** Only the positions inside the list matter to `Without`. */
  lemma {:induction false} WithoutInRange(rows: seq<Row>, d1: set<int>, d2: set<int>)
    requires forall k :: 0 <= k < |rows| ==> (k in d1 <==> k in d2)
    ensures Without(rows, d1) == Without(rows, d2)
  {
    if |rows| > 0 {
      WithoutInRange(rows[..|rows| - 1], d1, d2);
    }
  }

  /** Dropping positions that are all past the end changes nothing. */
  lemma {:induction false} WithoutNothing(rows: seq<Row>, drop: set<int>)
    requires forall d :: d in drop ==> d >= |rows|
    ensures Without(rows, drop) == rows
  {
    if |rows| > 0 {
      WithoutNothing(rows[..|rows| - 1], drop);
    }
  }

  /** When every dropped position lies after `t`, the rows up to `t` are
      kept in place, and removing the row at `t` from the result is the same
      as dropping `t` as well. */
  lemma {:induction false} RemoveBelow(rows: seq<Row>, drop: set<int>, t: int)
    requires 0 <= t < |rows|
    requires forall d :: d in drop ==> d > t
    ensures |Without(rows, drop)| > t && Without(rows, drop)[..t + 1] == rows[..t + 1]
    ensures Without(rows, drop + {t}) == Without(rows, drop)[..t] + Without(rows, drop)[t + 1..]
    decreases |rows|
  {
    if |rows| - 1 == t {
      WithoutNothing(rows, drop);
      WithoutNothing(rows[..t], drop + {t});
    } else {
      RemoveBelow(rows[..|rows| - 1], drop, t);
      RemoveBelowStep(rows, drop, t);
    }
  }

  /** `RemoveBelow` for all rows but the last gives it for all rows. */
  lemma RemoveBelowStep(rows: seq<Row>, drop: set<int>, t: int)
    requires 0 <= t < |rows| - 1
    requires var w := Without(rows[..|rows| - 1], drop);
      |w| > t && w[..t + 1] == rows[..t + 1]
      && Without(rows[..|rows| - 1], drop + {t}) == w[..t] + w[t + 1..]
    ensures |Without(rows, drop)| > t && Without(rows, drop)[..t + 1] == rows[..t + 1]
    ensures Without(rows, drop + {t}) == Without(rows, drop)[..t] + Without(rows, drop)[t + 1..]
  {
    var n := |rows|;
    var init := rows[..n - 1];
    var w := Without(init, drop);
    var w2 := Without(init, drop + {t});
    if n - 1 in drop {
      assert Without(rows, drop) == w + [];
      assert Without(rows, drop + {t}) == w2 + [];
    } else {
      assert Without(rows, drop) == w + [rows[n - 1]];
      assert Without(rows, drop + {t}) == w2 + [rows[n - 1]];
      RemoveAtExtend(w, rows[n - 1], t);
    }
  }

  /** Removing position `t` commutes with appending a row after it. */
  lemma RemoveAtExtend(w: seq<Row>, x: Row, t: int)
    requires 0 <= t < |w|
    ensures (w + [x])[..t + 1] == w[..t + 1]
    ensures (w + [x])[..t] + (w + [x])[t + 1..] == w[..t] + w[t + 1..] + [x]
  {
    assert (w + [x])[..t] == w[..t];
    assert (w + [x])[t + 1..] == w[t + 1..] + [x];
  }

  /** Dropping the positions of the `st` rows keeps exactly the others. */
  lemma {:induction false} WithoutStatus(rows: seq<Row>, st: Status)
    ensures Without(rows, IndicesWith(rows, st)) == OtherThan(rows, st)
  {
    if |rows| > 0 {
      var init := rows[..|rows| - 1];
      WithoutInRange(init, IndicesWith(rows, st), IndicesWith(init, st));
      WithoutStatus(init, st);
    }
  }

  /** What is left has no `st` row, keeps every other row, and is shorter
      by the number of `st` rows. */
  lemma {:induction false} OtherThanSpec(rows: seq<Row>, st: Status)
    ensures forall r :: r in OtherThan(rows, st) <==> r in rows && r.status != st
    ensures |OtherThan(rows, st)| == |rows| - Count(rows, st)
    ensures Count(rows, st) == 0 ==> OtherThan(rows, st) == rows
  {
    OtherThanMembers(rows, st);
    OtherThanCount(rows, st);
  }

  lemma {:induction false} OtherThanMembers(rows: seq<Row>, st: Status)
    ensures forall r :: r in OtherThan(rows, st) <==> r in rows && r.status != st
  {
    if |rows| > 0 {
      var init := rows[..|rows| - 1];
      var last := rows[|rows| - 1];
      OtherThanMembers(init, st);
      assert rows == init + [last];
      var tail: seq<Row> := if last.status == st then [] else [last];
      assert OtherThan(rows, st) == OtherThan(init, st) + tail;
      forall r ensures r in OtherThan(rows, st) <==> r in rows && r.status != st {
        assert r in OtherThan(rows, st) <==> r in OtherThan(init, st) || r in tail;
        assert r in rows <==> r in init || r == last;
      }
    }
  }

  lemma {:induction false} OtherThanCount(rows: seq<Row>, st: Status)
    ensures |OtherThan(rows, st)| == |rows| - Count(rows, st)
    ensures Count(rows, st) == 0 ==> OtherThan(rows, st) == rows
  {
    if |rows| > 0 {
      var init := rows[..|rows| - 1];
      var last := rows[|rows| - 1];
      OtherThanCount(init, st);
      assert rows == init + [last];
    }
  }

  /** Walking a strictly increasing list backwards: the positions after
      `j - 1` are all above the one at `j - 1`, which joins them. */
  lemma LaterMembers(indices: seq<int>, j: int)
    requires StrictlyIncreasing(indices) && 0 < j <= |indices|
    ensures forall x :: x in Members(indices[j..]) ==> x > indices[j - 1]
    ensures Members(indices[j - 1..]) == Members(indices[j..]) + {indices[j - 1]}
  {
    forall x | x in Members(indices[j..]) ensures x > indices[j - 1] {
      var k :| j <= k < |indices| && indices[k] == x;
    }
    assert indices[j - 1..] == [indices[j - 1]] + indices[j..];
  }

  /** Every row has one of the four statuses, so the counts add up to the
      number of rows. */
  lemma {:induction false} CountsSum(rows: seq<Row>)
    ensures Count(rows, Waiting) + Count(rows, Transferring) + Count(rows, Completed) + Count(rows, Failed) == |rows|
  {
    if |rows| > 0 {
      CountsSum(rows[..|rows| - 1]);
    }
  }

  // ---------------------------------------------------------------------
  // The table

  class TransferQueueTable {
    var rows: seq<Row>
    /** Start time of each task whose 0% progress was reported and which has
        not ended yet. */
    var startTimes: map<int, int>
    var paused: bool

    constructor()
      ensures rows == [] && startTimes == map[] && !paused
    {
      rows := [];
      startTimes := map[];
      paused := false;
    }

    /** Appends a waiting row and returns its index. */
    method AddTransfer(taskId: int, filename: string, source: string, destination: string, fileSize: int)
      returns (row: int)
      modifies this
      ensures row == |old(rows)|
      ensures rows == old(rows) + [Row(Waiting, taskId, fileSize, filename, source, destination, NoTime)]
      ensures startTimes == old(startTimes) && paused == old(paused)
    {
      row := |rows|;
      rows := rows + [Row(Waiting, taskId, fileSize, filename, source, destination, NoTime)];
    }

    /** The first row carrying `taskId`, or -1. */
    method FindRowByTaskId(taskId: int) returns (row: int)
      ensures row == FirstRow(rows, taskId)
    {
      for k := 0 to |rows|
        invariant forall j :: 0 <= j < k ==> rows[j].taskId != taskId
      {
        if rows[k].taskId == taskId {
          return k;
        }
      }
      return -1;
    }

    /** Progress 0 marks the row transferring and records the start time;
        100 marks it completed whatever it was, fills in the elapsed time
        when a start was recorded and forgets the start; any other value
        marks it transferring. An unknown task id changes nothing. */
    method UpdateProgressByTaskId(taskId: int, progress: int, now: int)
      modifies this
      ensures var r := FirstRow(old(rows), taskId);
        if r == -1 then rows == old(rows) && startTimes == old(startTimes)
        else if progress == 0 then
          rows == old(rows)[r := old(rows)[r].(status := Transferring)]
          && startTimes == old(startTimes)[taskId := now]
        else if progress == 100 then
          rows == old(rows)[r := old(rows)[r].(status := Completed,
                   time := if taskId in old(startTimes) then Elapsed(now - old(startTimes)[taskId]) else old(rows)[r].time)]
          && startTimes == old(startTimes) - {taskId}
        else
          rows == old(rows)[r := old(rows)[r].(status := Transferring)] && startTimes == old(startTimes)
      ensures paused == old(paused)
    {
      var row := FindRowByTaskId(taskId);
      if row == -1 {
        return;
      }
      if progress == 0 {
        startTimes := startTimes[taskId := now];
        rows := rows[row := rows[row].(status := Transferring)];
      } else if progress == 100 {
        if taskId in startTimes {
          rows := rows[row := rows[row].(time := Elapsed(now - startTimes[taskId]))];
          startTimes := startTimes - {taskId};
        }
        rows := rows[row := rows[row].(status := Completed)];
      } else {
        rows := rows[row := rows[row].(status := Transferring)];
      }
    }

    /** Marks the row failed, shows "Failed" as its time and forgets its
        start. An unknown task id changes nothing. */
    method MarkFailedByTaskId(taskId: int)
      modifies this
      ensures var r := FirstRow(old(rows), taskId);
        if r == -1 then rows == old(rows) && startTimes == old(startTimes)
        else
          rows == old(rows)[r := old(rows)[r].(status := Failed, time := FailedTime)]
          && startTimes == old(startTimes) - {taskId}
      ensures paused == old(paused)
    {
      var row := FindRowByTaskId(taskId);
      if row == -1 {
        return;
      }
      rows := rows[row := rows[row].(status := Failed)];
      startTimes := startTimes - {taskId};
      rows := rows[row := rows[row].(time := FailedTime)];
    }

    /** Removes the rows at the given positions, last one first so that the
        earlier positions stay valid. */
    method RemoveRows(indices: seq<int>)
      requires StrictlyIncreasing(indices)
      requires forall k :: 0 <= k < |indices| ==> 0 <= indices[k] < |rows|
      modifies this
      ensures rows == Without(old(rows), Members(indices))
      ensures startTimes == old(startTimes) && paused == old(paused)
    {
      ghost var original := rows;
      var j := |indices|;
      WithoutNothing(original, {});
      assert Members(indices[j..]) == {};
      while j > 0
        invariant 0 <= j <= |indices|
        invariant rows == Without(original, Members(indices[j..]))
        invariant startTimes == old(startTimes) && paused == old(paused)
      {
        ghost var removed := Members(indices[j..]);
        var t := indices[j - 1];
        LaterMembers(indices, j);
        RemoveBelow(original, removed, t);
        rows := rows[..t] + rows[t + 1..];
        j := j - 1;
      }
      assert indices[0..] == indices;
    }

    /** Removes exactly the completed rows; the others keep their order. */
    method ClearCompleted()
      modifies this
      ensures rows == OtherThan(old(rows), Completed)
      ensures startTimes == old(startTimes) && paused == old(paused)
    {
      var toRemove: seq<int> := [];
      for i := 0 to |rows|
        invariant StrictlyIncreasing(toRemove)
        invariant forall k :: 0 <= k < |toRemove| ==> 0 <= toRemove[k] < i
        invariant Members(toRemove) == IndicesWith(rows[..i], Completed)
      {
        assert IndicesWith(rows[..i + 1], Completed)
            == IndicesWith(rows[..i], Completed) + (if rows[i].status == Completed then {i} else {});
        if rows[i].status == Completed {
          toRemove := toRemove + [i];
        }
      }
      assert rows[..|rows|] == rows;
      WithoutStatus(rows, Completed);
      RemoveRows(toRemove);
    }

    /** The per-status counts; retry is offered exactly when a row has
        failed. */
    method StatusStats() returns (waiting: nat, inProgress: nat, completed: nat, failed: nat, retryEnabled: bool)
      ensures waiting == Count(rows, Waiting) && inProgress == Count(rows, Transferring)
      ensures completed == Count(rows, Completed) && failed == Count(rows, Failed)
      ensures waiting + inProgress + completed + failed == |rows|
      ensures retryEnabled <==> exists k :: 0 <= k < |rows| && rows[k].status == Failed
    {
      waiting, inProgress, completed, failed := 0, 0, 0, 0;
      for i := 0 to |rows|
        invariant waiting == Count(rows[..i], Waiting) && inProgress == Count(rows[..i], Transferring)
        invariant completed == Count(rows[..i], Completed) && failed == Count(rows[..i], Failed)
        invariant failed > 0 <==> exists k :: 0 <= k < i && rows[k].status == Failed
      {
        assert rows[..i + 1][..i] == rows[..i];
        match rows[i].status {
          case Waiting => waiting := waiting + 1;
          case Transferring => inProgress := inProgress + 1;
          case Completed => completed := completed + 1;
          case Failed => failed := failed + 1;
        }
      }
      assert rows[..|rows|] == rows;
      CountsSum(rows);
      retryEnabled := failed > 0;
    }

    /** Each click flips the pause state. */
    method OnPauseClicked()
      modifies this
      ensures paused == !old(paused)
      ensures rows == old(rows) && startTimes == old(startTimes)
    {
      paused := !paused;
    }
  }
}
