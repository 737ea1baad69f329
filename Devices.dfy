/** The device watcher (adb_copy/workers/device_watcher.py): it polls the
    device list and reports it only when it differs from the last reported
    one, compared by length and by the set of (serial, state) pairs. The
    poll results are an input sequence; the signals are a ghost event
    trace. */
module Devices {
  import opened Adb

  /** One poll: the parsed device list, or the failure of the command. */
  datatype PollResult = Listed(devices: seq<AdbDevice>) | PollFailed(message: string)

  datatype WatchEvent = DevicesChangedTo(devices: seq<AdbDevice>) | ErrorOccurred(message: string)

  /** The (serial, state) pairs of a device list. */
  function Pairs(devices: seq<AdbDevice>): set<(string, string)> {
    set d | d in devices :: (d.serial, d.state)
  }

  /** Some device of `a` has a (serial, state) pair no device of `b` has. */
  predicate HasUnmatched(a: seq<AdbDevice>, b: seq<AdbDevice>) {
    exists d :: d in a && forall e :: e in b ==> (e.serial, e.state) != (d.serial, d.state)
  }

  /** `_devices_changed`: a different length, or a different set of
      (serial, state) pairs. Read device by device: the lists are unchanged
      exactly when they have the same length and every device of each has
      its serial and state matched by some device of the other. */
  predicate DevicesChanged(last: seq<AdbDevice>, current: seq<AdbDevice>): (changed: bool)
    ensures changed <==> |current| != |last| || HasUnmatched(current, last) || HasUnmatched(last, current)
  {
    PairsDiffer(current, last);
    |current| != |last| || Pairs(current) != Pairs(last)
  }

  lemma PairsDiffer(a: seq<AdbDevice>, b: seq<AdbDevice>)
    ensures Pairs(a) != Pairs(b) <==> HasUnmatched(a, b) || HasUnmatched(b, a)
  {
    if Pairs(a) != Pairs(b) {
      if exists p :: p in Pairs(a) && p !in Pairs(b) {
        UnmatchedPair(a, b);
      } else {
        assert exists p :: p in Pairs(b) && p !in Pairs(a);
        UnmatchedPair(b, a);
      }
    } else {
      MatchedPairs(a, b);
      MatchedPairs(b, a);
    }
  }

  lemma UnmatchedPair(a: seq<AdbDevice>, b: seq<AdbDevice>)
    requires exists p :: p in Pairs(a) && p !in Pairs(b)
    ensures HasUnmatched(a, b)
  {
    var p :| p in Pairs(a) && p !in Pairs(b);
    var d :| d in a && p == (d.serial, d.state);
    forall e | e in b ensures (e.serial, e.state) != p {
      assert (e.serial, e.state) in Pairs(b);
    }
  }

  lemma MatchedPairs(a: seq<AdbDevice>, b: seq<AdbDevice>)
    requires Pairs(a) <= Pairs(b)
    ensures !HasUnmatched(a, b)
  {
    forall d | d in a ensures exists e :: e in b && (e.serial, e.state) == (d.serial, d.state) {
      assert (d.serial, d.state) in Pairs(a);
    }
  }

  /** The snapshot and events after one poll. */
  function Poll(last: seq<AdbDevice>, poll: PollResult): (seq<AdbDevice>, seq<WatchEvent>) {
    match poll
    case PollFailed(m) => (last, [ErrorOccurred(m)])
    case Listed(current) =>
      if DevicesChanged(last, current) then (current, [DevicesChangedTo(current)]) else (last, [])
  }

  /** The snapshot and events after a run of polls. */
  function Watch(last: seq<AdbDevice>, polls: seq<PollResult>): (seq<AdbDevice>, seq<WatchEvent>) {
    if |polls| == 0 then (last, [])
    else
      var (l, es) := Watch(last, polls[..|polls| - 1]);
      var (l2, es2) := Poll(l, polls[|polls| - 1]);
      (l2, es + es2)
  }

  // ---------------------------------------------------------------------
  // The comparison

  /** Reordering the current list does not matter. */
  lemma OrderIrrelevant(last: seq<AdbDevice>, c1: seq<AdbDevice>, c2: seq<AdbDevice>)
    requires multiset(c1) == multiset(c2)
    ensures DevicesChanged(last, c1) == DevicesChanged(last, c2)
  {
    assert |c1| == |multiset(c1)| == |c2|;
    forall d ensures d in c1 <==> d in c2 {
      assert d in c1 <==> d in multiset(c1);
      assert d in c2 <==> d in multiset(c2);
    }
    assert Pairs(c1) == Pairs(c2);
  }

  /** The model field does not matter: lists that agree position by
      position on serial and state compare alike. */
  lemma ModelIrrelevant(last: seq<AdbDevice>, c1: seq<AdbDevice>, c2: seq<AdbDevice>)
    requires |c1| == |c2|
    requires forall k :: 0 <= k < |c1| ==> c1[k].serial == c2[k].serial && c1[k].state == c2[k].state
    ensures DevicesChanged(last, c1) == DevicesChanged(last, c2)
  {
    forall p | p in Pairs(c1) ensures p in Pairs(c2) {
      var d :| d in c1 && p == (d.serial, d.state);
      var k :| 0 <= k < |c1| && c1[k] == d;
      assert c2[k] in c2;
    }
    forall p | p in Pairs(c2) ensures p in Pairs(c1) {
      var d :| d in c2 && p == (d.serial, d.state);
      var k :| 0 <= k < |c2| && c2[k] == d;
      assert c1[k] in c1;
    }
  }

  /** A list compared with itself is never a change: that is the debounce. */
  lemma SameListUnchanged(devices: seq<AdbDevice>)
    ensures !DevicesChanged(devices, devices)
  {
  }

  /** For lists of the same length the comparison is the pair sets only:
      adding a duplicate of a present device while dropping another present
      one goes unreported. */
  lemma DuplicatesMasked(a: AdbDevice, b: AdbDevice)
    requires (a.serial, a.state) != (b.serial, b.state)
    ensures [a, a, b] != [a, b, b] && !DevicesChanged([a, a, b], [a, b, b])
  {
    assert Pairs([a, a, b]) == {(a.serial, a.state), (b.serial, b.state)};
    assert Pairs([a, b, b]) == {(a.serial, a.state), (b.serial, b.state)};
    assert [a, a, b][1] != [a, b, b][1];
  }

  // ---------------------------------------------------------------------
  // Runs of polls

  /** The device lists carried by the change events. */
  function ChangedLists(events: seq<WatchEvent>): seq<seq<AdbDevice>> {
    if |events| == 0 then []
    else
      var init := ChangedLists(events[..|events| - 1]);
      match events[|events| - 1]
      case DevicesChangedTo(ds) => init + [ds]
      case ErrorOccurred(_) => init
  }

  /** Each reported list differs from the one reported before it (from the
      starting snapshot, for the first). */
  predicate Debounced(start: seq<AdbDevice>, lists: seq<seq<AdbDevice>>) {
    forall k :: 0 <= k < |lists| ==> DevicesChanged(Before(start, lists, k), lists[k])
  }

  /** The list in force before the k-th report: the k-th's predecessor, or
      the starting snapshot for the first. */
  function Before(start: seq<AdbDevice>, lists: seq<seq<AdbDevice>>, k: int): seq<AdbDevice>
    requires 0 <= k <= |lists|
  {
    if k == 0 then start else lists[k - 1]
  }

  function LastOr(start: seq<AdbDevice>, lists: seq<seq<AdbDevice>>): seq<AdbDevice> {
    Before(start, lists, |lists|)
  }

  lemma ChangedListsAppend(a: seq<WatchEvent>, b: seq<WatchEvent>)
    requires |b| <= 1
    ensures ChangedLists(a + b) == ChangedLists(a) + ChangedLists(b)
  {
    if |b| == 0 {
      assert a + b == a;
    } else {
      assert (a + b)[..|a + b| - 1] == a;
    }
  }

  /** Reporting a list that differs from the last reported one keeps the
      run debounced. */
  lemma DebouncedSnoc(start: seq<AdbDevice>, lists: seq<seq<AdbDevice>>, next: seq<AdbDevice>)
    requires Debounced(start, lists) && DevicesChanged(LastOr(start, lists), next)
    ensures Debounced(start, lists + [next]) && LastOr(start, lists + [next]) == next
  {
    var all := lists + [next];
    forall k | 0 <= k < |all|
      ensures DevicesChanged(Before(start, all, k), all[k])
    {
      if k < |lists| {
        assert all[k] == lists[k];
        assert Before(start, all, k) == Before(start, lists, k);
      } else {
        assert all[k] == next;
        assert Before(start, all, k) == LastOr(start, lists);
      }
    }
  }

  /** Over any run of polls, the snapshot is the last reported list (the
      starting one if none was reported), every reported list differs from
      the previous one, and errors leave the snapshot alone. */
  lemma {:induction false} WatchInvariant(start: seq<AdbDevice>, polls: seq<PollResult>)
    ensures Watch(start, polls).0 == LastOr(start, ChangedLists(Watch(start, polls).1))
    ensures Debounced(start, ChangedLists(Watch(start, polls).1))
  {
    if |polls| > 0 {
      var init := polls[..|polls| - 1];
      WatchInvariant(start, init);
      var (l, es) := Watch(start, init);
      var (l2, es2) := Poll(l, polls[|polls| - 1]);
      assert Watch(start, polls) == (l2, es + es2);
      ChangedListsAppend(es, es2);
      var lists := ChangedLists(es);
      assert l == LastOr(start, lists);
      match polls[|polls| - 1] {
        case PollFailed(m) =>
          assert ChangedLists(es2) == [] by {
            assert es2[..0] == [];
          }
          assert lists + [] == lists;
        case Listed(current) =>
          if DevicesChanged(l, current) {
            assert ChangedLists(es2) == [l2] by {
              assert es2[..0] == [];
            }
            DebouncedSnoc(start, lists, l2);
          } else {
            assert lists + [] == lists;
          }
      }
    }
  }

  /** Starting from the empty snapshot, a first poll with no device emits
      nothing and a first poll with devices reports them. */
  lemma FirstPoll(current: seq<AdbDevice>)
    ensures current == [] ==> Watch([], [Listed(current)]) == ([], [])
    ensures current != [] ==> Watch([], [Listed(current)]) == (current, [DevicesChangedTo(current)])
  {
    assert [Listed(current)][..0] == [];
    assert Watch([], [Listed(current)]) == (Poll([], Listed(current)).0, [] + Poll([], Listed(current)).1);
    if current == [] {
      assert !DevicesChanged([], current);
      var none: seq<WatchEvent> := [];
      assert Poll([], Listed(current)) == ([], none);
      assert none + none == none;
    } else {
      assert [] + [DevicesChangedTo(current)] == [DevicesChangedTo(current)];
    }
  }

  /** Polling the list just reported again emits nothing. */
  lemma RepeatedPollSilent(start: seq<AdbDevice>, polls: seq<PollResult>, current: seq<AdbDevice>)
    requires Watch(start, polls).0 == current
    ensures Watch(start, polls + [Listed(current)]) == Watch(start, polls)
  {
    assert (polls + [Listed(current)])[..|polls|] == polls;
    var es := Watch(start, polls).1;
    assert es + [] == es;
  }

  // ---------------------------------------------------------------------
  // The watcher

  class DeviceWatcher {
    var running: bool
    var lastDevices: seq<AdbDevice>
    /** Every signal emitted so far, oldest first. */
    ghost var events: seq<WatchEvent>

    constructor()
      ensures !running && lastDevices == [] && events == []
    {
      running := false;
      lastDevices := [];
      events := [];
    }

    /** One pass of the watch loop: compare, store and report on change;
        report an error without touching the snapshot. */
    method PollOnce(poll: PollResult)
      modifies this
      ensures (lastDevices, events) == (Poll(old(lastDevices), poll).0, old(events) + Poll(old(lastDevices), poll).1)
      ensures running == old(running)
    {
      match poll {
        case PollFailed(m) =>
          events := events + [ErrorOccurred(m)];
        case Listed(current) =>
          if DevicesChanged(lastDevices, current) {
            lastDevices := current;
            events := events + [DevicesChangedTo(current)];
          } else {
            assert events + [] == events;
          }
      }
    }

    method StopWatching()
      modifies this
      ensures !running
      ensures lastDevices == old(lastDevices) && events == old(events)
    {
      running := false;
    }

    /** The watch loop, in a run where `polls` are the results of the
        successive polls and another thread's `StopWatching` lands once
        they are used up. */
    method StartWatching(polls: seq<PollResult>)
      modifies this
      ensures lastDevices == Watch(old(lastDevices), polls).0
      ensures events == old(events) + Watch(old(lastDevices), polls).1
      ensures !running
    {
      ghost var start := lastDevices;
      running := true;
      var i := 0;
      if i == |polls| {
        StopWatching();
      }
      while running
        invariant 0 <= i <= |polls| && (running <==> i < |polls|)
        invariant lastDevices == Watch(start, polls[..i]).0
        invariant events == old(events) + Watch(start, polls[..i]).1
        decreases |polls| - i
      {
        assert polls[..i + 1][..i] == polls[..i];
        PollOnce(polls[i]);
        i := i + 1;
        if i == |polls| {
          StopWatching();
        }
      }
      assert polls[..i] == polls;
    }
  }
}
