/** The transfer worker (adb_copy/workers/transfer_worker.py): a FIFO of
    copy jobs processed one at a time, each reported as started, progress,
    then completed or failed. The device bridge is an oracle from a task to
    the outcome of its copy; the signals the worker emits are recorded in a
    ghost event trace. */
module Transfers {
  import opened Text

  /** One copy job. `direction` is "push" (local to device) or "pull"
      (device to local); any other text is carried through and rejected
      when the task runs. */
  datatype TransferTask = TransferTask(
    taskId: int,
    filename: string,
    sourcePath: string,
    destinationPath: string,
    direction: string,
    deviceSerial: string,
    fileSize: int)

  /** What the bridge reports for one copy: it finished, the copy
      subprocess failed (timeout or non-zero exit) with a message, or the
      adb executable could not be started at all. The last is not a
      subprocess error, so it escapes the copy's own handler and reaches
      the run loop with its bare message. */
  datatype BridgeOutcome = Copied | BridgeError(message: string) | BridgeMissing(message: string)

  /** The worker's signals. Progress carries the percentage; the speed text
      is not modelled. */
  datatype Event =
    | Started(id: int)
    | Progress(id: int, percent: int)
    | Completed(id: int)
    | Failed(id: int, message: string)
    | AllCompleted

  predicate IsTerminal(e: Event) {
    e.Completed? || e.Failed?
  }

  // ---------------------------------------------------------------------
  // What one task emits

  /** The progress events of the copy step for a known direction: 0 before
      the bridge is called, 100 only once it has returned. */
  function CopyEvents(task: TransferTask, outcome: BridgeOutcome): seq<Event> {
    if outcome.Copied? then [Progress(task.taskId, 0), Progress(task.taskId, 100)]
    else [Progress(task.taskId, 0)]
  }

  /** The failure prefix of a direction, "" when the direction is unknown. */
  function FailurePrefix(direction: string): string {
    if direction == "push" then "Push failed: "
    else if direction == "pull" then "Pull failed: "
    else ""
  }

  predicate KnownDirection(direction: string) {
    direction == "push" || direction == "pull"
  }

  /** The failure message of a copy once the bridge has answered: a
      subprocess error behind `prefix`, a missing executable bare. */
  function CopyError(outcome: BridgeOutcome, prefix: string): Option<string> {
    match outcome
    case Copied => None
    case BridgeError(m) => Some(prefix + m)
    case BridgeMissing(m) => Some(m)
  }

  /** The failure message of a task, if it fails. */
  function TaskError(task: TransferTask, outcome: BridgeOutcome): Option<string> {
    if !KnownDirection(task.direction) then Some("Unknown transfer direction: " + task.direction)
    else CopyError(outcome, FailurePrefix(task.direction))
  }

  /** Everything the loop emits for one dequeued task. */
  function TaskEvents(task: TransferTask, outcome: BridgeOutcome): seq<Event> {
    var progress := if KnownDirection(task.direction) then CopyEvents(task, outcome) else [];
    var last := match TaskError(task, outcome)
      case None => Completed(task.taskId)
      case Some(m) => Failed(task.taskId, m);
    [Started(task.taskId)] + progress + [last]
  }

  /** Everything the loop emits for a run of tasks, in dequeue order. */
  function RunEvents(tasks: seq<TransferTask>, bridge: TransferTask -> BridgeOutcome): seq<Event> {
    if |tasks| == 0 then []
    else RunEvents(tasks[..|tasks| - 1], bridge) + TaskEvents(tasks[|tasks| - 1], bridge(tasks[|tasks| - 1]))
  }

  function Ids(tasks: seq<TransferTask>): (r: seq<int>)
    ensures |r| == |tasks| && forall k :: 0 <= k < |tasks| ==> r[k] == tasks[k].taskId
  {
    if |tasks| == 0 then [] else Ids(tasks[..|tasks| - 1]) + [tasks[|tasks| - 1].taskId]
  }

  /** The ids of the started events, in order. */
  function StartedIds(events: seq<Event>): seq<int> {
    if |events| == 0 then []
    else StartedIds(events[..|events| - 1]) + (if events[|events| - 1].Started? then [events[|events| - 1].id] else [])
  }

  /** The ids of the completed and failed events, in order. */
  function TerminalIds(events: seq<Event>): seq<int> {
    if |events| == 0 then []
    else TerminalIds(events[..|events| - 1]) + (if IsTerminal(events[|events| - 1]) then [events[|events| - 1].id] else [])
  }

  // ---------------------------------------------------------------------
  // Properties of one task

  /** A task is reported as started first and ends with exactly one
      completed or failed event; every event carries its id. */
  lemma TaskEventsShape(task: TransferTask, outcome: BridgeOutcome)
    ensures var es := TaskEvents(task, outcome);
      |es| >= 2 && es[0] == Started(task.taskId) && IsTerminal(es[|es| - 1])
      && (forall k :: 0 <= k < |es| ==> !es[k].AllCompleted? && es[k].id == task.taskId)
      && (forall k :: 0 <= k < |es| - 1 ==> !IsTerminal(es[k]))
      && (es[|es| - 1].Completed? <==> TaskError(task, outcome).None?)
  {
  }

  /** An unknown direction fails the task without any progress event and
      without consulting the bridge. */
  lemma UnknownDirectionFails(task: TransferTask, outcome: BridgeOutcome)
    requires !KnownDirection(task.direction)
    ensures TaskEvents(task, outcome)
         == [Started(task.taskId), Failed(task.taskId, "Unknown transfer direction: " + task.direction)]
  {
  }

  /** A push or pull reports 0% before the copy; it reports 100% and
      completes exactly when the bridge succeeds; a subprocess error fails
      it with the bridge's message behind the direction's prefix, and a
      missing executable fails it with the bare message. */
  lemma CopyReporting(task: TransferTask, outcome: BridgeOutcome)
    requires KnownDirection(task.direction)
    ensures var es := TaskEvents(task, outcome);
      es[1] == Progress(task.taskId, 0)
      && (Progress(task.taskId, 100) in es <==> outcome.Copied?)
      && (outcome.Copied? ==> es == [Started(task.taskId), Progress(task.taskId, 0), Progress(task.taskId, 100), Completed(task.taskId)])
      && (outcome.BridgeError? ==> es == [Started(task.taskId), Progress(task.taskId, 0), Failed(task.taskId, FailurePrefix(task.direction) + outcome.message)])
      && (outcome.BridgeMissing? ==> es == [Started(task.taskId), Progress(task.taskId, 0), Failed(task.taskId, outcome.message)])
    ensures task.direction == "push" ==> FailurePrefix(task.direction) == "Push failed: "
    ensures task.direction == "pull" ==> FailurePrefix(task.direction) == "Pull failed: "
  {
    var es := TaskEvents(task, outcome);
    if outcome.BridgeError? {
      assert es == [Started(task.taskId), Progress(task.taskId, 0), Failed(task.taskId, FailurePrefix(task.direction) + outcome.message)];
    } else if outcome.BridgeMissing? {
      assert es == [Started(task.taskId), Progress(task.taskId, 0), Failed(task.taskId, outcome.message)];
    }
  }

  // ---------------------------------------------------------------------
  // Properties of a run

  lemma {:induction false} StartedIdsAppend(a: seq<Event>, b: seq<Event>)
    ensures StartedIds(a + b) == StartedIds(a) + StartedIds(b)
    decreases |b|
  {
    if |b| > 0 {
      StartedIdsAppend(a, b[..|b| - 1]);
      assert (a + b)[..|a + b| - 1] == a + b[..|b| - 1];
    } else {
      assert a + b == a;
    }
  }

  lemma {:induction false} TerminalIdsAppend(a: seq<Event>, b: seq<Event>)
    ensures TerminalIds(a + b) == TerminalIds(a) + TerminalIds(b)
    decreases |b|
  {
    if |b| > 0 {
      TerminalIdsAppend(a, b[..|b| - 1]);
      assert (a + b)[..|a + b| - 1] == a + b[..|b| - 1];
    } else {
      assert a + b == a;
    }
  }

  lemma {:induction false} ProgressOnlyIds(es: seq<Event>)
    requires forall k :: 0 <= k < |es| ==> es[k].Progress?
    ensures StartedIds(es) == [] && TerminalIds(es) == []
  {
    if |es| > 0 {
      ProgressOnlyIds(es[..|es| - 1]);
    }
  }

  lemma TaskIds(task: TransferTask, outcome: BridgeOutcome)
    ensures StartedIds(TaskEvents(task, outcome)) == [task.taskId]
    ensures TerminalIds(TaskEvents(task, outcome)) == [task.taskId]
  {
    var es := TaskEvents(task, outcome);
    var last := es[|es| - 1];
    var progress := es[1..|es| - 1];
    assert es == [Started(task.taskId)] + progress + [last];
    ProgressOnlyIds(progress);
    StartedIdsAppend([Started(task.taskId)] + progress, [last]);
    StartedIdsAppend([Started(task.taskId)], progress);
    TerminalIdsAppend([Started(task.taskId)] + progress, [last]);
    TerminalIdsAppend([Started(task.taskId)], progress);
  }

  /** Tasks are started in the order they were queued, and every task ends
      with exactly one completed or failed event, also in queue order: a
      failed task never stops the run. */
  lemma {:induction false} RunOrder(tasks: seq<TransferTask>, bridge: TransferTask -> BridgeOutcome)
    ensures StartedIds(RunEvents(tasks, bridge)) == Ids(tasks)
    ensures TerminalIds(RunEvents(tasks, bridge)) == Ids(tasks)
    ensures AllCompleted !in RunEvents(tasks, bridge)
    decreases |tasks|
  {
    if |tasks| > 0 {
      var init := tasks[..|tasks| - 1];
      var t := tasks[|tasks| - 1];
      RunOrder(init, bridge);
      TaskIds(t, bridge(t));
      TaskEventsShape(t, bridge(t));
      StartedIdsAppend(RunEvents(init, bridge), TaskEvents(t, bridge(t)));
      TerminalIdsAppend(RunEvents(init, bridge), TaskEvents(t, bridge(t)));
    }
  }

  lemma RunEventsAppend(tasks: seq<TransferTask>, t: TransferTask, bridge: TransferTask -> BridgeOutcome)
    ensures RunEvents(tasks + [t], bridge) == RunEvents(tasks, bridge) + TaskEvents(t, bridge(t))
  {
    assert (tasks + [t])[..|tasks|] == tasks;
  }

  // ---------------------------------------------------------------------
  // The worker

  class TransferWorker {
    var taskQueue: seq<TransferTask>
    var running: bool
    var paused: bool
    /** Every signal emitted so far, oldest first. */
    ghost var events: seq<Event>

    constructor()
      ensures taskQueue == [] && !running && !paused && events == []
    {
      taskQueue := [];
      running := false;
      paused := false;
      events := [];
    }

    /** Queues a task at the tail. */
    method AddTask(task: TransferTask)
      modifies this
      ensures taskQueue == old(taskQueue) + [task]
      ensures running == old(running) && paused == old(paused) && events == old(events)
    {
      taskQueue := taskQueue + [task];
    }

    method Pause()
      modifies this
      ensures paused
      ensures taskQueue == old(taskQueue) && running == old(running) && events == old(events)
    {
      paused := true;
    }

    method Resume()
      modifies this
      ensures !paused
      ensures taskQueue == old(taskQueue) && running == old(running) && events == old(events)
    {
      paused := false;
    }

    /** Ends the run after the current task; also lifts a pause so a waiting
        loop can see the stop. */
    method Stop()
      modifies this
      ensures !running && !paused
      ensures taskQueue == old(taskQueue) && events == old(events)
    {
      running := false;
      paused := false;
    }

    /** A push or a pull: 0% before the bridge call, 100% after it returns;
        a subprocess error becomes a failure message behind
        `failurePrefix`, and a missing executable passes through bare. */
    method CopyFile(task: TransferTask, outcome: BridgeOutcome, failurePrefix: string) returns (error: Option<string>)
      modifies this
      ensures events == old(events) + CopyEvents(task, outcome)
      ensures outcome.Copied? ==> error == None
      ensures outcome.BridgeError? ==> error == Some(failurePrefix + outcome.message)
      ensures outcome.BridgeMissing? ==> error == Some(outcome.message)
      ensures taskQueue == old(taskQueue) && running == old(running) && paused == old(paused)
    {
      events := events + [Progress(task.taskId, 0)];
      match outcome {
        case Copied =>
          events := events + [Progress(task.taskId, 100)];
          error := None;
        case BridgeError(m) =>
          error := Some(failurePrefix + m);
        case BridgeMissing(m) =>
          error := Some(m);
      }
    }

    /** Dispatches on the direction; an unknown one is an error. */
    method ProcessTask(task: TransferTask, outcome: BridgeOutcome) returns (error: Option<string>)
      modifies this
      ensures events == old(events) + (if KnownDirection(task.direction) then CopyEvents(task, outcome) else [])
      ensures error == TaskError(task, outcome)
      ensures taskQueue == old(taskQueue) && running == old(running) && paused == old(paused)
    {
      if task.direction == "push" {
        error := CopyFile(task, outcome, "Push failed: ");
      } else if task.direction == "pull" {
        error := CopyFile(task, outcome, "Pull failed: ");
      } else {
        error := Some("Unknown transfer direction: " + task.direction);
      }
    }

    /** One pass of the run loop once it is not paused: dequeue the head,
        report it started, process it, report it completed or failed. */
    method ProcessNext(bridge: TransferTask -> BridgeOutcome)
      requires taskQueue != []
      modifies this
      ensures taskQueue == old(taskQueue)[1..]
      ensures events == old(events) + TaskEvents(old(taskQueue)[0], bridge(old(taskQueue)[0]))
      ensures running == old(running) && paused == old(paused)
    {
      var task := taskQueue[0];
      taskQueue := taskQueue[1..];
      events := events + [Started(task.taskId)];
      var error := ProcessTask(task, bridge(task));
      match error {
        case None => events := events + [Completed(task.taskId)];
        case Some(m) => events := events + [Failed(task.taskId, m)];
      }
    }

    /** The run loop. Another thread may call `Stop`: `stopAfter` is the
        number of tasks after which that call lands (0 means before the
        first one; a value of at least the queue length lets the queue
        drain). All-completed is emitted exactly when the queue ends empty,
        and the worker is not running afterwards. */
    method StartTransfer(bridge: TransferTask -> BridgeOutcome, stopAfter: nat)
      requires !paused
      modifies this
      ensures var n := if stopAfter < |old(taskQueue)| then stopAfter else |old(taskQueue)|;
        taskQueue == old(taskQueue)[n..]
        && events == old(events) + RunEvents(old(taskQueue)[..n], bridge)
                     + (if n == |old(taskQueue)| then [AllCompleted] else [])
      ensures !running && !paused
    {
      ghost var queued := taskQueue;
      ghost var n := if stopAfter < |queued| then stopAfter else |queued|;
      running := true;
      var done := 0;
      if done == stopAfter {
        Stop();
      }
      while running && taskQueue != []
        invariant done <= n && taskQueue == queued[done..]
        invariant events == old(events) + RunEvents(queued[..done], bridge)
        invariant !paused
        invariant running <==> done < stopAfter
        decreases |taskQueue|
      {
        ghost var before := queued[..done];
        assert taskQueue[0] == queued[done] && taskQueue[1..] == queued[done + 1..];
        ProcessNext(bridge);
        RunEventsAppend(before, queued[done], bridge);
        Associative(old(events), RunEvents(before, bridge), TaskEvents(queued[done], bridge(queued[done])));
        assert queued[..done + 1] == before + [queued[done]];
        done := done + 1;
        if done == stopAfter {
          Stop();
        }
      }
      assert done == n;
      if taskQueue == [] {
        events := events + [AllCompleted];
      }
      running := false;
    }
  }
}
