/** The main window's bookkeeping (adb_copy/main_window.py): the task-id
    counter, the tasks it builds for new and retried copies, the overwrite
    "apply to all" memo, the unique-name probe, and the choice of the
    device shown in the remote panel. The existence check, the overwrite
    dialog, the local file sizes and the local path join are inputs. */
module Controller {
  import opened Text
  import opened Paths
  import opened Adb
  import opened Transfers
  import opened TransferQueue

  // ---------------------------------------------------------------------
  // The unique-name probe

  /** Candidate `k`: `<stem>_<k><suffix>` in the destination directory. */
  function Candidate(destPath: string, filename: string, k: nat): string {
    ChildPath(destPath, Stem(BaseName(filename)) + "_" + NatToString(k) + Suffix(BaseName(filename)))
  }

  /** The number of the candidate the probe settles on when it starts at
      `k`, where `taken(j)` says whether candidate `j` exists: the first
      free one, or 100 when every one up to 100 exists. */
  function SettledFrom(taken: nat -> bool, k: nat): (r: nat)
    requires 1 <= k <= 100
    ensures k <= r <= 100
    decreases 100 - k
  {
    if !taken(k) || k == 100 then k else SettledFrom(taken, k + 1)
  }

  /** The probe settles on the first free candidate from `k` on; when every
      candidate from `k` to 100 exists it settles on candidate 100, which
      exists. */
  lemma {:induction false} SettledSpec(taken: nat -> bool, k: nat)
    requires 1 <= k <= 100
    ensures var r := SettledFrom(taken, k);
      (forall j :: k <= j < r ==> taken(j))
      && (r < 100 ==> !taken(r))
      && ((exists j :: k <= j <= 100 && !taken(j)) <==> !taken(r))
    decreases 100 - k
  {
    if taken(k) && k < 100 {
      SettledSpec(taken, k + 1);
    }
  }

  /** Strings that agree around a differing middle differ. */
  lemma MiddleDiffers(pre: string, a: string, b: string, suf: string)
    requires a != b
    ensures pre + a + suf != pre + b + suf
  {
    if |a| == |b| {
      var i :| 0 <= i < |a| && a[i] != b[i];
      assert (pre + a + suf)[|pre| + i] == a[i];
      assert (pre + b + suf)[|pre| + i] == b[i];
    } else {
      assert |pre + a + suf| != |pre + b + suf|;
    }
  }

  /** Different counters give different candidates, so no path is checked
      twice. */
  lemma CandidatesDistinct(destPath: string, filename: string, j: nat, k: nat)
    requires j != k
    ensures Candidate(destPath, filename, j) != Candidate(destPath, filename, k)
  {
    var pre := Stem(BaseName(filename)) + "_";
    var suf := Suffix(BaseName(filename));
    var a, b := NatToString(j), NatToString(k);
    assert DigitsValue(a) != DigitsValue(b);
    MiddleDiffers(pre, a, b, suf);
    var start := |RStripChar(destPath, '/')| + 1;
    assert Candidate(destPath, filename, j)[start..] == pre + a + suf;
    assert Candidate(destPath, filename, k)[start..] == pre + b + suf;
  }

  /** Whether candidate `j` is known to exist: the check answered
      present. */
  function Taken(destPath: string, filename: string, run: string -> ShellResult): nat -> bool {
    (j: nat) => FileExists(Candidate(destPath, filename, j), run) == Some(true)
  }

  /** `_get_unique_name`: probes `<stem>_1<suffix>`, `<stem>_2<suffix>`, ...
      with the device's existence check and returns the first that is
      absent; after 100 probes it gives up and returns the last candidate.
      A missing adb executable escapes the check, and then the probe,
      as `None`. `probes` counts the existence checks. */
  method GetUniqueName(destPath: string, filename: string, run: string -> ShellResult)
    returns (path: Option<string>, ghost probes: nat)
    ensures var k := SettledFrom(Taken(destPath, filename, run), 1);
      path == (if FileExists(Candidate(destPath, filename, k), run).None? then None
               else Some(Candidate(destPath, filename, k)))
    ensures probes == SettledFrom(Taken(destPath, filename, run), 1) <= 100
  {
    ghost var taken := Taken(destPath, filename, run);
    var baseName := Stem(BaseName(filename));
    var ext := Suffix(BaseName(filename));
    var counter: nat := 1;
    probes := 0;
    while true
      invariant 1 <= counter <= 100 && probes == counter - 1
      invariant SettledFrom(taken, counter) == SettledFrom(taken, 1)
      decreases 100 - counter
    {
      var newName := baseName + "_" + NatToString(counter) + ext;
      var newPath := ChildPath(destPath, newName);
      assert newPath == Candidate(destPath, filename, counter);
      var answer := FileExists(newPath, run);
      assert taken(counter) == (answer == Some(true));
      probes := probes + 1;
      if answer.None? {
        return None, probes;
      }
      if !answer.value {
        return Some(newPath), probes;
      }
      counter := counter + 1;
      if counter > 100 {
        return Some(newPath), probes;
      }
    }
  }

  // ---------------------------------------------------------------------
  // Building tasks

  /** One file picked for a copy: its path and, when known, its size. */
  datatype FileInfo = FileInfo(path: string, size: Option<int>)

  function SizeOrZero(info: FileInfo): int {
    if info.size.Some? then info.size.value else 0
  }

  /** The task `_add_transfer_tasks` builds for one file: the name is the
      last component of the source; a push lands in the slash-stripped
      remote directory under that name, a pull goes to the local join of
      directory and name; a file of unknown size counts as 0 bytes. */
  function NewTask(direction: string, info: FileInfo, destPath: string, deviceSerial: string,
                   localJoin: (string, string) -> string, id: int): (t: TransferTask)
    ensures t.taskId == id && t.sourcePath == info.path && t.filename == BaseName(info.path)
    ensures t.direction == direction && t.deviceSerial == deviceSerial
    ensures direction == "push" ==> t.destinationPath == ChildPath(destPath, t.filename)
    ensures direction == "push" && t.filename != [] ==>
      DirectoryPart(t.destinationPath) == RStripChar(destPath, '/') && BaseName(t.destinationPath) == t.filename
    ensures direction != "push" ==> t.destinationPath == localJoin(destPath, t.filename)
    ensures info.size.Some? ==> t.fileSize == info.size.value
    ensures info.size.None? ==> t.fileSize == 0
  {
    var filename := BaseName(info.path);
    PushParts(destPath, filename);
    TransferTask(
      id, filename, info.path,
      if direction == "push" then ChildPath(destPath, filename) else localJoin(destPath, filename),
      direction, deviceSerial, SizeOrZero(info))
  }

  lemma PushParts(destPath: string, filename: string)
    requires '/' !in filename
    ensures filename != [] ==> DirectoryPart(ChildPath(destPath, filename)) == RStripChar(destPath, '/')
                               && BaseName(ChildPath(destPath, filename)) == filename
  {
    if filename != [] {
      ChildParts(destPath, filename);
    }
  }

  /** The direction a retried row gets: pull when its source is a remote
      (slash-rooted) path, push otherwise. */
  function RetryDirection(sourcePath: string): (d: string)
    ensures d == "pull" <==> |sourcePath| > 0 && sourcePath[0] == '/'
    ensures d == "push" <==> !(|sourcePath| > 0 && sourcePath[0] == '/')
  {
    if StartsWith(sourcePath, "/") then "pull" else "push"
  }

  /** The task a failed row is retried as: same name and paths, the
      direction read back from the source, the local size for a push and 0
      for a pull. */
  function RetryTask(row: Row, deviceSerial: string, localSize: string -> int, id: int): TransferTask {
    var direction := RetryDirection(row.source);
    TransferTask(
      id, row.filename, row.source, row.destination, direction, deviceSerial,
      if direction == "push" then localSize(row.source) else 0)
  }

  /** The failed rows, in table order. */
  function FailedRows(rows: seq<Row>): seq<Row> {
    if |rows| == 0 then []
    else FailedRows(rows[..|rows| - 1]) + (if rows[|rows| - 1].status == Status.Failed then [rows[|rows| - 1]] else [])
  }

  /** Looking at one more row extends both the failed positions and the
      failed rows by that row when it failed. */
  lemma FailedStep(rows: seq<Row>, row: int)
    requires 0 <= row < |rows|
    ensures IndicesWith(rows[..row + 1], Status.Failed)
      == IndicesWith(rows[..row], Status.Failed) + (if rows[row].status == Status.Failed then {row} else {})
    ensures FailedRows(rows[..row + 1])
      == FailedRows(rows[..row]) + (if rows[row].status == Status.Failed then [rows[row]] else [])
  {
    var pre := rows[..row + 1];
    assert pre[..|pre| - 1] == rows[..row];
    assert pre[|pre| - 1] == rows[row];
  }

  lemma MembersSnoc(indices: seq<int>, x: int)
    ensures Members(indices + [x]) == Members(indices) + {x}
  {
  }

  /** The waiting row the table shows for a queued task. */
  function QueueRow(t: TransferTask): Row {
    Row(Waiting, t.taskId, t.fileSize, t.filename, t.sourcePath, t.destinationPath, NoTime)
  }

  /** `make` applied to each element in order, the k-th one under the id
      `firstId + k`. */
  function Numbered<A, B>(make: (A, int) -> B, xs: seq<A>, firstId: int): (r: seq<B>)
    ensures |r| == |xs|
  {
    if |xs| == 0 then []
    else Numbered(make, xs[..|xs| - 1], firstId) + [make(xs[|xs| - 1], firstId + |xs| - 1)]
  }

  /** One more element adds its item at the end. */
  lemma NumberedStep<A, B>(make: (A, int) -> B, xs: seq<A>, firstId: int, i: int)
    requires 0 <= i < |xs|
    ensures Numbered(make, xs[..i + 1], firstId) == Numbered(make, xs[..i], firstId) + [make(xs[i], firstId + i)]
  {
    assert xs[..i + 1][..i] == xs[..i];
  }

  /** The k-th item is made from the k-th element under id `firstId + k`. */
  lemma {:induction false} NumberedSpec<A, B>(make: (A, int) -> B, xs: seq<A>, firstId: int)
    ensures forall k :: 0 <= k < |xs| ==> Numbered(make, xs, firstId)[k] == make(xs[k], firstId + k)
  {
    if |xs| > 0 {
      var init := xs[..|xs| - 1];
      NumberedSpec(make, init, firstId);
      forall k | 0 <= k < |init| ensures init[k] == xs[k] { }
    }
  }

  function TaskMaker(direction: string, destPath: string, deviceSerial: string,
                     localJoin: (string, string) -> string): (FileInfo, int) -> TransferTask
  {
    (info: FileInfo, id: int) => NewTask(direction, info, destPath, deviceSerial, localJoin, id)
  }

  /** The tasks `_add_transfer_tasks` builds for `files`, in order, with
      consecutive ids from `firstId`. */
  function NewTasks(direction: string, files: seq<FileInfo>, destPath: string, deviceSerial: string,
                    localJoin: (string, string) -> string, firstId: int): seq<TransferTask>
  {
    Numbered(TaskMaker(direction, destPath, deviceSerial, localJoin), files, firstId)
  }

  /** Building one more file's task extends the list by that task. */
  lemma NewTasksStep(direction: string, files: seq<FileInfo>, destPath: string, deviceSerial: string,
                     localJoin: (string, string) -> string, firstId: int, i: int)
    requires 0 <= i < |files|
    ensures NewTasks(direction, files[..i + 1], destPath, deviceSerial, localJoin, firstId)
      == NewTasks(direction, files[..i], destPath, deviceSerial, localJoin, firstId)
      + [NewTask(direction, files[i], destPath, deviceSerial, localJoin, firstId + i)]
  {
    var make := TaskMaker(direction, destPath, deviceSerial, localJoin);
    assert make(files[i], firstId + i) == NewTask(direction, files[i], destPath, deviceSerial, localJoin, firstId + i);
    NumberedStep(make, files, firstId, i);
  }

  /** One task per file, the k-th built for the k-th file under id
      `firstId + k`. */
  lemma NewTasksSpec(direction: string, files: seq<FileInfo>, destPath: string, deviceSerial: string,
                     localJoin: (string, string) -> string, firstId: int)
    ensures var ts := NewTasks(direction, files, destPath, deviceSerial, localJoin, firstId);
      |ts| == |files| &&
      forall k :: 0 <= k < |files| ==> ts[k] == NewTask(direction, files[k], destPath, deviceSerial, localJoin, firstId + k)
  {
    NumberedSpec(TaskMaker(direction, destPath, deviceSerial, localJoin), files, firstId);
  }

  function RetryMaker(deviceSerial: string, localSize: string -> int): (Row, int) -> TransferTask {
    (row: Row, id: int) => RetryTask(row, deviceSerial, localSize, id)
  }

  /** The tasks the retry builds for the failed rows, in order, with
      consecutive ids from `firstId`. */
  function RetryTasks(failed: seq<Row>, deviceSerial: string, localSize: string -> int, firstId: int): seq<TransferTask> {
    Numbered(RetryMaker(deviceSerial, localSize), failed, firstId)
  }

  /** Retrying one more row extends the list by that row's task. */
  lemma RetryTasksStep(failed: seq<Row>, deviceSerial: string, localSize: string -> int, firstId: int, i: int)
    requires 0 <= i < |failed|
    ensures RetryTasks(failed[..i + 1], deviceSerial, localSize, firstId)
      == RetryTasks(failed[..i], deviceSerial, localSize, firstId) + [RetryTask(failed[i], deviceSerial, localSize, firstId + i)]
  {
    NumberedStep(RetryMaker(deviceSerial, localSize), failed, firstId, i);
  }

  /** One task per failed row, the k-th for the k-th row under id
      `firstId + k`. */
  lemma RetryTasksSpec(failed: seq<Row>, deviceSerial: string, localSize: string -> int, firstId: int)
    ensures var ts := RetryTasks(failed, deviceSerial, localSize, firstId);
      |ts| == |failed| &&
      forall k :: 0 <= k < |failed| ==> ts[k] == RetryTask(failed[k], deviceSerial, localSize, firstId + k)
  {
    NumberedSpec(RetryMaker(deviceSerial, localSize), failed, firstId);
  }

  /** The waiting rows the table shows for queued tasks, in order. */
  function QueueRows(tasks: seq<TransferTask>): seq<Row> {
    if |tasks| == 0 then []
    else QueueRows(tasks[..|tasks| - 1]) + [QueueRow(tasks[|tasks| - 1])]
  }

  /** Queuing one more task adds its row at the end. */
  lemma QueueRowsSnoc(tasks: seq<TransferTask>, t: TransferTask)
    ensures QueueRows(tasks + [t]) == QueueRows(tasks) + [QueueRow(t)]
  {
    assert (tasks + [t])[..|tasks|] == tasks;
  }

  /** One waiting row per task, each showing that task's id, name, size
      and paths. */
  lemma {:induction false} QueueRowsSpec(tasks: seq<TransferTask>)
    ensures |QueueRows(tasks)| == |tasks|
    ensures forall k :: 0 <= k < |tasks| ==> QueueRows(tasks)[k] == QueueRow(tasks[k])
    ensures forall k :: 0 <= k < |tasks| ==>
      var r := QueueRows(tasks)[k];
      r.status == Waiting && r.taskId == tasks[k].taskId && r.filename == tasks[k].filename
      && r.source == tasks[k].sourcePath && r.destination == tasks[k].destinationPath
  {
    if |tasks| > 0 {
      var init := tasks[..|tasks| - 1];
      QueueRowsSpec(init);
      forall k | 0 <= k < |init| ensures init[k] == tasks[k] { }
    }
  }

  /** The failed rows are exactly the rows with status Failed, in order,
      and there are as many as the table counts. */
  lemma {:induction false} FailedRowsSpec(rows: seq<Row>)
    ensures forall r :: r in FailedRows(rows) <==> r in rows && r.status == Status.Failed
    ensures |FailedRows(rows)| == Count(rows, Status.Failed)
  {
    if |rows| > 0 {
      FailedRowsSpec(rows[..|rows| - 1]);
      assert rows == rows[..|rows| - 1] + [rows[|rows| - 1]];
    }
  }

  /** A row queued for a task and then failed is retried with the task's
      name, paths and direction, provided the source follows the
      convention that remote paths are slash-rooted and local ones are not.
      On a host whose local paths are slash-rooted too, a failed push is
      retried as a pull. */
  lemma RetryRecoversTask(t: TransferTask, deviceSerial: string, localSize: string -> int, id: int)
    requires t.direction == "pull" <==> StartsWith(t.sourcePath, "/")
    requires t.direction == "push" || t.direction == "pull"
    ensures var r := RetryTask(QueueRow(t).(status := Status.Failed, time := FailedTime), deviceSerial, localSize, id);
      r.filename == t.filename && r.sourcePath == t.sourcePath
      && r.destinationPath == t.destinationPath && r.direction == t.direction
  {
  }

  lemma LocalRootedPushRetriedAsPull(t: TransferTask, deviceSerial: string, localSize: string -> int, id: int)
    requires t.direction == "push" && StartsWith(t.sourcePath, "/")
    ensures RetryTask(QueueRow(t).(status := Status.Failed, time := FailedTime), deviceSerial, localSize, id).direction == "pull"
  {
  }

  // ---------------------------------------------------------------------
  // The overwrite memo

  /** The dialog's constants. */
  const OVERWRITE := 1
  const SKIP := 2
  const RENAME := 3
  const CANCEL := 4

  /** What the overwrite dialog answers when shown: the button's code (0
      when closed without a button) and the "apply to all" box. */
  datatype DialogAnswer = DialogAnswer(result: int, applyToAll: bool)

  /** One `_check_overwrite`: the stored action if there is one, otherwise
      the dialog's answer, stored when "apply to all" is ticked. */
  function Decide(stored: Option<int>, answer: DialogAnswer): (int, Option<int>) {
    if stored.Some? then (stored.value, stored)
    else (answer.result, if answer.applyToAll then Some(answer.result) else None)
  }

  /** The choices of successive checks, and the memo afterwards; `answers`
      are what the dialog would answer at each check. */
  function Decisions(stored: Option<int>, answers: seq<DialogAnswer>): (seq<int>, Option<int>) {
    if |answers| == 0 then ([], stored)
    else
      var (cs, st) := Decisions(stored, answers[..|answers| - 1]);
      var (c, st2) := Decide(st, answers[|answers| - 1]);
      (cs + [c], st2)
  }

  /** The index of the first answer with "apply to all" ticked, or the
      number of answers. */
  function FirstTicked(answers: seq<DialogAnswer>): (r: nat)
    ensures r <= |answers|
    ensures forall i :: 0 <= i < r ==> !answers[i].applyToAll
    ensures r < |answers| ==> answers[r].applyToAll
  {
    if |answers| == 0 then 0
    else if answers[0].applyToAll then 0
    else 1 + FirstTicked(answers[1..])
  }

  /** Starting from a cleared memo, every check up to and including the
      first ticked one returns the dialog's answer; every later check
      returns that ticked answer without regard to the dialog; the memo
      holds it afterwards, and stays empty when nothing was ticked. */
  lemma {:induction false} DecisionsSpec(answers: seq<DialogAnswer>)
    ensures var (cs, st) := Decisions(None, answers);
      var t := FirstTicked(answers);
      |cs| == |answers|
      && (forall i :: 0 <= i < |cs| && i <= t ==> cs[i] == answers[i].result)
      && (forall i :: 0 <= i < |cs| && i > t ==> cs[i] == answers[t].result)
      && st == (if t < |answers| then Some(answers[t].result) else None)
  {
    if |answers| > 0 {
      var init := answers[..|answers| - 1];
      DecisionsSpec(init);
      var t0 := FirstTicked(init);
      var t := FirstTicked(answers);
      if t0 < |init| {
        assert answers[t0] == init[t0];
        assert t == t0;
      } else {
        assert t == t0 || t == |answers|;
      }
    }
  }

  /** Once an action is stored the dialog is never consulted again. */
  lemma {:induction false} StoredActionSticks(c: int, answers: seq<DialogAnswer>)
    ensures var (cs, st) := Decisions(Some(c), answers);
      st == Some(c) && |cs| == |answers| && forall i :: 0 <= i < |cs| ==> cs[i] == c
  {
    if |answers| > 0 {
      StoredActionSticks(c, answers[..|answers| - 1]);
    }
  }

  // ---------------------------------------------------------------------
  // The device shown in the remote panel

  /** The first device in the `device` state. */
  function FirstActive(devices: seq<AdbDevice>): (r: Option<AdbDevice>)
    ensures r.None? <==> forall k :: 0 <= k < |devices| ==> devices[k].state != "device"
    ensures r.Some? ==>
      exists k :: 0 <= k < |devices| && devices[k] == r.value && r.value.state == "device"
                  && forall j :: 0 <= j < k ==> devices[j].state != "device"
  {
    if |devices| == 0 then None
    else if devices[0].state == "device" then Some(devices[0])
    else
      var r := FirstActive(devices[1..]);
      if r.Some? then
        assert exists k :: 0 <= k < |devices| && devices[k] == r.value && r.value.state == "device"
                           && forall j :: 0 <= j < k ==> devices[j].state != "device" by {
          var k :| 0 <= k < |devices[1..]| && devices[1..][k] == r.value && r.value.state == "device"
                   && forall j :: 0 <= j < k ==> devices[1..][j].state != "device";
          assert devices[k + 1] == r.value;
          forall j | 0 <= j < k + 1 ensures devices[j].state != "device" {
            if j > 0 {
              assert devices[j] == devices[1..][j - 1];
            }
          }
        }
        r
      else r
  }

  /** `_on_devices_changed`: none for an empty list; for one device, that
      device when it is in the `device` state; for several, the first in
      that state. */
  function ActiveDevice(devices: seq<AdbDevice>): Option<AdbDevice> {
    if |devices| == 0 then None
    else if |devices| == 1 then (if devices[0].state == "device" then Some(devices[0]) else None)
    else FirstActive(devices)
  }

  /** The three cases agree: the panel always gets the first device in the
      `device` state, or none when there is no such device. */
  lemma ActiveDeviceIsFirstActive(devices: seq<AdbDevice>)
    ensures ActiveDevice(devices) == FirstActive(devices)
  {
    if |devices| == 1 {
      assert devices[1..] == [];
    }
  }

  // ---------------------------------------------------------------------
  // The window

  class MainWindow {
    /** The id the next created task takes. */
    var nextTaskId: int
    /** The stored "apply to all" overwrite choice. */
    var overwriteAllAction: Option<int>
    /** The device the remote panel browses. */
    var currentDevice: Option<AdbDevice>
    const queue: TransferQueueTable
    const worker: TransferWorker
    /** Every task id handed out so far. */
    ghost var issued: set<int>

    /** Every id handed out so far is below the counter. */
    ghost predicate Valid()
      reads this
    {
      nextTaskId >= 1 && forall id :: id in issued ==> id < nextTaskId
    }

    constructor()
      ensures Valid() && fresh(queue) && fresh(worker)
      ensures nextTaskId == 1 && issued == {} && overwriteAllAction == None && currentDevice == None
      ensures queue.rows == [] && !queue.paused && worker.taskQueue == [] && !worker.running && !worker.paused
    {
      nextTaskId := 1;
      overwriteAllAction := None;
      currentDevice := None;
      queue := new TransferQueueTable();
      worker := new TransferWorker();
      issued := {};
    }

    /** `_on_devices_changed`, as far as the remote panel's device goes. */
    method OnDevicesChanged(devices: seq<AdbDevice>)
      modifies this
      ensures currentDevice == FirstActive(devices)
      ensures nextTaskId == old(nextTaskId) && overwriteAllAction == old(overwriteAllAction) && issued == old(issued)
    {
      ActiveDeviceIsFirstActive(devices);
      currentDevice := ActiveDevice(devices);
    }

    /** `_check_overwrite`, with the dialog's answer as input. */
    method CheckOverwrite(answer: DialogAnswer) returns (choice: int)
      modifies this
      ensures (choice, overwriteAllAction) == Decide(old(overwriteAllAction), answer)
      ensures nextTaskId == old(nextTaskId) && currentDevice == old(currentDevice) && issued == old(issued)
    {
      if overwriteAllAction.Some? {
        return overwriteAllAction.value;
      }
      choice := answer.result;
      if answer.applyToAll {
        overwriteAllAction := Some(choice);
      }
    }

    /** Takes the next id and puts the task in the table and in the
        worker's queue. */
    method Enqueue(filename: string, sourcePath: string, destinationPath: string, direction: string,
                   deviceSerial: string, fileSize: int) returns (task: TransferTask)
      requires Valid()
      modifies this, queue, worker
      ensures Valid()
      ensures task == TransferTask(old(nextTaskId), filename, sourcePath, destinationPath, direction, deviceSerial, fileSize)
      ensures nextTaskId == old(nextTaskId) + 1 && issued == old(issued) + {task.taskId}
      ensures task.taskId !in old(issued)
      ensures queue.rows == old(queue.rows) + [QueueRow(task)]
      ensures worker.taskQueue == old(worker.taskQueue) + [task]
      ensures overwriteAllAction == old(overwriteAllAction) && currentDevice == old(currentDevice)
      ensures queue.startTimes == old(queue.startTimes) && queue.paused == old(queue.paused)
      ensures worker.running == old(worker.running) && worker.paused == old(worker.paused)
      ensures worker.events == old(worker.events)
    {
      var taskId := nextTaskId;
      nextTaskId := nextTaskId + 1;
      issued := issued + {taskId};
      var _ := queue.AddTransfer(taskId, filename, sourcePath, destinationPath, fileSize);
      task := TransferTask(taskId, filename, sourcePath, destinationPath, direction, deviceSerial, fileSize);
      worker.AddTask(task);
    }

    /** One file of `_add_transfer_tasks`: derives the name and the
        destination and queues the task. */
    method AddFile(direction: string, info: FileInfo, destPath: string, deviceSerial: string,
                   localJoin: (string, string) -> string) returns (task: TransferTask)
      requires Valid()
      modifies this, queue, worker
      ensures Valid()
      ensures task == NewTask(direction, info, destPath, deviceSerial, localJoin, old(nextTaskId))
      ensures nextTaskId == old(nextTaskId) + 1
      ensures queue.rows == old(queue.rows) + [QueueRow(task)]
      ensures worker.taskQueue == old(worker.taskQueue) + [task]
      ensures overwriteAllAction == old(overwriteAllAction) && currentDevice == old(currentDevice)
      ensures queue.startTimes == old(queue.startTimes) && queue.paused == old(queue.paused)
      ensures worker.running == old(worker.running) && worker.paused == old(worker.paused)
    {
      var filename := BaseName(info.path);
      var sourcePath := info.path;
      var destinationPath;
      if direction == "push" {
        destinationPath := ChildPath(destPath, filename);
      } else {
        destinationPath := localJoin(destPath, filename);
      }
      task := Enqueue(filename, sourcePath, destinationPath, direction, deviceSerial, SizeOrZero(info));
    }

    /** `_add_transfer_tasks`: clears the overwrite memo, then queues one
        task per file, in order, with consecutive fresh ids. `localJoin` is
        the local path join used for pull destinations. */
    method AddTransferTasks(direction: string, files: seq<FileInfo>, destPath: string, deviceSerial: string,
                            localJoin: (string, string) -> string)
      requires Valid()
      modifies this, queue, worker
      ensures Valid()
      ensures overwriteAllAction == None
      ensures nextTaskId == old(nextTaskId) + |files|
      ensures forall id :: old(nextTaskId) <= id < nextTaskId ==> id !in old(issued)
      ensures worker.taskQueue == old(worker.taskQueue) + NewTasks(direction, files, destPath, deviceSerial, localJoin, old(nextTaskId))
      ensures queue.rows == old(queue.rows) + QueueRows(NewTasks(direction, files, destPath, deviceSerial, localJoin, old(nextTaskId)))
      ensures currentDevice == old(currentDevice)
      ensures queue.startTimes == old(queue.startTimes) && queue.paused == old(queue.paused)
      ensures worker.running == old(worker.running) && worker.paused == old(worker.paused)
    {
      overwriteAllAction := None;
      ghost var firstId := nextTaskId;
      ghost var q0, r0 := worker.taskQueue, queue.rows;
      ghost var done: seq<TransferTask> := [];
      for i := 0 to |files|
        invariant Valid()
        invariant nextTaskId == firstId + i
        invariant done == NewTasks(direction, files[..i], destPath, deviceSerial, localJoin, firstId)
        invariant worker.taskQueue == q0 + done && queue.rows == r0 + QueueRows(done)
        invariant overwriteAllAction == None && currentDevice == old(currentDevice)
        invariant queue.startTimes == old(queue.startTimes) && queue.paused == old(queue.paused)
        invariant worker.running == old(worker.running) && worker.paused == old(worker.paused)
      {
        var t := AddFile(direction, files[i], destPath, deviceSerial, localJoin);
        assert t == NewTask(direction, files[i], destPath, deviceSerial, localJoin, firstId + i);
        NewTasksStep(direction, files, destPath, deviceSerial, localJoin, firstId, i);
        QueueRowsSnoc(done, t);
        Associative(q0, done, [t]);
        Associative(r0, QueueRows(done), [QueueRow(t)]);
        done := done + [t];
      }
      assert files[..|files|] == files;
    }

    /** The first loop of `_on_retry_transfer`: the positions of the
        failed rows, ascending, and the rows themselves. */
    method CollectFailed() returns (indices: seq<int>, failed: seq<Row>)
      ensures StrictlyIncreasing(indices)
      ensures forall k :: 0 <= k < |indices| ==> 0 <= indices[k] < |queue.rows|
      ensures Members(indices) == IndicesWith(queue.rows, Status.Failed)
      ensures failed == FailedRows(queue.rows)
    {
      var rows := queue.rows;
      indices, failed := [], [];
      for row := 0 to |rows|
        invariant StrictlyIncreasing(indices)
        invariant forall k :: 0 <= k < |indices| ==> 0 <= indices[k] < row
        invariant Members(indices) == IndicesWith(rows[..row], Status.Failed)
        invariant failed == FailedRows(rows[..row])
      {
        FailedStep(rows, row);
        if rows[row].status == Status.Failed {
          MembersSnoc(indices, row);
          indices := indices + [row];
          failed := failed + [rows[row]];
        }
      }
      assert rows[..|rows|] == rows;
    }

    /** `_on_retry_transfer`: with no device, nothing happens. Otherwise the
        failed rows are collected in table order, removed (last first), and
        each is queued again, in the same order, under a fresh id with the
        direction read back from its source. `localSize` is the local file
        size lookup. */
    method RetryFailed(localSize: string -> int)
      requires Valid()
      modifies this, queue, worker
      ensures Valid()
      ensures currentDevice.None? ==>
        nextTaskId == old(nextTaskId) && queue.rows == old(queue.rows) && worker.taskQueue == old(worker.taskQueue)
      ensures currentDevice.Some? ==>
        var failed := FailedRows(old(queue.rows));
        var kept := OtherThan(old(queue.rows), Status.Failed);
        var retried := RetryTasks(failed, currentDevice.value.serial, localSize, old(nextTaskId));
        nextTaskId == old(nextTaskId) + |failed|
        && queue.rows == kept + QueueRows(retried)
        && worker.taskQueue == old(worker.taskQueue) + retried
      ensures forall id :: old(nextTaskId) <= id < nextTaskId ==> id !in old(issued)
      ensures overwriteAllAction == old(overwriteAllAction) && currentDevice == old(currentDevice)
      ensures queue.startTimes == old(queue.startTimes) && queue.paused == old(queue.paused)
      ensures worker.running == old(worker.running) && worker.paused == old(worker.paused)
    {
      if currentDevice.None? {
        return;
      }
      var deviceSerial := currentDevice.value.serial;
      ghost var rows0 := queue.rows;
      WithoutStatus(rows0, Status.Failed);

      var indices, failed := CollectFailed();
      if |failed| == 0 {
        FailedRowsSpec(rows0);
        OtherThanSpec(rows0, Status.Failed);
        return;
      }

      queue.RemoveRows(indices);
      Requeue(failed, deviceSerial, localSize);
    }

    /** The second loop of `_on_retry_transfer`: each collected row is
        queued again, in order, under the next id. */
    method Requeue(failed: seq<Row>, deviceSerial: string, localSize: string -> int)
      requires Valid()
      modifies this, queue, worker
      ensures Valid()
      ensures nextTaskId == old(nextTaskId) + |failed|
      ensures forall id :: old(nextTaskId) <= id < nextTaskId ==> id !in old(issued)
      ensures worker.taskQueue == old(worker.taskQueue) + RetryTasks(failed, deviceSerial, localSize, old(nextTaskId))
      ensures queue.rows == old(queue.rows) + QueueRows(RetryTasks(failed, deviceSerial, localSize, old(nextTaskId)))
      ensures overwriteAllAction == old(overwriteAllAction) && currentDevice == old(currentDevice)
      ensures queue.startTimes == old(queue.startTimes) && queue.paused == old(queue.paused)
      ensures worker.running == old(worker.running) && worker.paused == old(worker.paused)
    {
      ghost var firstId := nextTaskId;
      ghost var q0, r0 := worker.taskQueue, queue.rows;
      ghost var done: seq<TransferTask> := [];
      for i := 0 to |failed|
        invariant Valid()
        invariant nextTaskId == firstId + i
        invariant done == RetryTasks(failed[..i], deviceSerial, localSize, firstId)
        invariant worker.taskQueue == q0 + done && queue.rows == r0 + QueueRows(done)
        invariant overwriteAllAction == old(overwriteAllAction) && currentDevice == old(currentDevice)
        invariant queue.startTimes == old(queue.startTimes) && queue.paused == old(queue.paused)
        invariant worker.running == old(worker.running) && worker.paused == old(worker.paused)
      {
        var r := failed[i];
        var direction := RetryDirection(r.source);
        var fileSize := 0;
        if direction == "push" {
          fileSize := localSize(r.source);
        }
        var t := Enqueue(r.filename, r.source, r.destination, direction, deviceSerial, fileSize);
        assert t == RetryTask(failed[i], deviceSerial, localSize, firstId + i);
        RetryTasksStep(failed, deviceSerial, localSize, firstId, i);
        QueueRowsSnoc(done, t);
        Associative(q0, done, [t]);
        Associative(r0, QueueRows(done), [QueueRow(t)]);
        done := done + [t];
      }
      assert failed[..|failed|] == failed;
    }

    /** `_on_pause_transfer`: the worker follows the table's pause button. */
    method OnPauseTransfer()
      modifies worker
      ensures worker.paused == queue.paused
      ensures worker.taskQueue == old(worker.taskQueue) && worker.running == old(worker.running)
      ensures worker.events == old(worker.events)
    {
      if queue.paused {
        worker.Pause();
      } else {
        worker.Resume();
      }
    }
  }
}
