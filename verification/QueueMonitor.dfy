/** The blocks of operations.py that run under the condition lock, on mutable fields. Each method is one atomic
    step; its contract ties the new state to the transition system of QueueSteps.dfy and keeps the invariant
    proved in QueueSafety.dfy. */
module QueueMonitor {
  import opened Wrappers
  import opened QueueSteps
  import opened QueueSafety

  class OperationQueue {
    const config: Config
    var records: map<OpId, Record>
    var table: seq<OpId>
    var queued: seq<OpId>
    var running: Option<OpId>
    var returned: bool
    var stop: bool
    var nextId: OpId
    var calls: map<CallId, Call>
    ghost var executed: seq<OpId>
    ghost var granted: set<Claim>
    ghost var finished: set<Claim>
    ghost var released: set<Claim>

    ghost function View(): Queue
      reads this
    {
      Queue(records, table, queued, running, returned, stop, nextId, calls, executed, granted, finished, released)
    }

    ghost predicate Valid()
      reads this
    {
      Inv(config, View())
    }

    constructor (c: Config)
      requires ValidConfig(c)
      ensures Valid() && View() == EMPTY && config == c
    {
      config := c;
      records, table, queued, running, returned, stop, nextId := map[], [], [], None, false, false, 0;
      calls, executed, granted, finished, released := map[], [], {}, {}, {};
      new;
      EmptyInv(c);
    }

    // -------------------------------------------------------------- building blocks

    /** `_finish`. */
    method FinishRecordOf(id: OpId, state: State, outcome: Outcome, now: int)
      requires id in records
      modifies this
      ensures View() == Finish(old(View()), id, state, outcome, now)
    {
      var r := records[id];
      if Terminal(r.state) {
        assert records[id := r] == records;
        return;
      }
      if r.claim.Some? { ReleaseClaim(r.claim.value); }
      records := records[id := r.(claim := None, state := state, queuePosition := None, outcome := outcome,
                                  finishedAt := Some(now))];
    }

    method ReleaseClaim(claim: Claim)
      modifies this`released
      ensures released == old(released) + {claim}
    {
      released := released + {claim};
    }

    /** `_update_positions`. */
    method Renumber()
      requires Increasing(queued) && forall id :: id in queued ==> id in records
      modifies this`records
      ensures View() == UpdatePositions(old(View()))
    {
      ghost var start := records;
      PositionsStart(start, queued);
      for i := 0 to |queued|
        invariant records == Positions(start, queued, i)
      {
        var id := queued[i];
        PositionsNext(start, queued, i);
        records := records[id := records[id].(queuePosition := Some(i + 1))];
      }
      PositionsEnd(old(View()));
    }

    /** Take the entries of the queue that `hit` selects out of it, one by one, and finish each as cancelled. */
    method CancelWaiting(hit: set<OpId>, error: Option<string>, now: int)
      requires Distinct(queued) && forall id :: id in queued ==> id in records
      modifies this
      ensures View() == CancelAll(old(View()), Selected(old(queued), hit), error, now)
    {
      hide CancelAll;
      ghost var start := View();
      var snapshot := queued;
      ghost var gone: set<OpId> := {};
      CancelNone(start, error, now);
      for i := 0 to |snapshot|
        invariant gone == Selected(snapshot[..i], hit)
        invariant View() == CancelAll(start, gone, error, now)
      {
        var id := snapshot[i];
        assert snapshot[..i + 1] == snapshot[..i] + [id];
        if id in hit {
          assert id !in gone by { assert forall j :: 0 <= j < i ==> snapshot[j] != id; }
          CancelOne(start, gone, id, error, now);
          queued := Without(queued, {id});
          FinishRecordOf(id, Cancelled, Outcome(None, error, None), now);
          gone := gone + {id};
        }
        assert gone == Selected(snapshot[..i + 1], hit);
      }
      assert snapshot[..|snapshot|] == snapshot;
    }

    // -------------------------------------------------------------- pruning

    /** The addressable record that is evictable and finished first. */
    method FindOldest(entries: seq<OpId>, now: int) returns (victim: Option<OpId>)
      ensures victim == Oldest(View(), entries, now)
    {
      victim := None;
      var i := |entries|;
      while i > 0
        invariant 0 <= i <= |entries|
        invariant victim == Oldest(View(), entries[i..], now)
      {
        i := i - 1;
        var id := entries[i];
        assert entries[i..][0] == id && entries[i..][1..] == entries[i + 1..];
        if id in records && Terminal(records[id].state) && records[id].waiters == 0 {
          var time := if records[id].finishedAt.Some? then records[id].finishedAt.value else now;
          if victim.None? {
            victim := Some(id);
          } else {
            var v := victim.value;
            var best := if v in records && records[v].finishedAt.Some? then records[v].finishedAt.value else now;
            if !(best < time) { victim := Some(id); }
          }
        }
      }
      assert entries[0..] == entries;
    }

    /** `_prune_terminals`. */
    method PruneTerminals(target: int, now: int)
      modifies this`table
      ensures View() == Prune(config, old(View()), target, now)
    {
      ghost var start := View();
      var kept: seq<OpId> := [];
      var i := |table|;
      while i > 0
        invariant 0 <= i <= |table|
        invariant kept == DropAged(start, table[i..], now, config.maxAge)
      {
        i := i - 1;
        var id := table[i];
        assert table[i..][0] == id && table[i..][1..] == table[i + 1..];
        if !(id in records && Terminal(records[id].state) && records[id].waiters == 0
             && records[id].finishedAt.Some? && now - records[id].finishedAt.value >= config.maxAge) {
          kept := [id] + kept;
        }
      }
      assert table[0..] == table;
      var n := |kept| - target;
      ghost var young := kept;
      while n > 0
        invariant View() == start
        invariant EvictOldest(start, young, |young| - target, now) == EvictOldest(start, kept, n, now)
        decreases n
      {
        var victim := FindOldest(kept, now);
        if victim.None? { break; }
        kept := Without(kept, {victim.value});
        n := n - 1;
      }
      table := kept;
    }

    // -------------------------------------------------------------- callers' blocks

    /** The locked block of `submit`. `cancel` is the running operation to ask to stop afterwards. */
    method Submit(longRunning: bool, key: Option<string>, now: int)
      returns (id: Option<OpId>, cancel: Option<OpId>)
      requires Valid()
      modifies this
      ensures Valid() && View() == Step(config, old(View()), Event.Submit(longRunning, key, now))
      ensures id == SubmitStep(config, old(View()), longRunning, key, now).1
      ensures cancel == if id.Some? && key.Some? && old(running).Some? && old(running).value in old(records)
                           && old(records)[old(running).value].replaceKey == key
                        then old(running) else None
    {
      SubmitKeeps(config, View(), longRunning, key, now);
      SubmitIsStep(config, View(), longRunning, key, now);
      Submissions(config, View(), longRunning, key, now);
      hide *;
      var replaced := if key.Some? && running.Some? && running.value in records && records[running.value].replaceKey == key
                      then running else None;
      id := Admit(longRunning, key, now);
      cancel := if id.Some? then replaced else None;
    }

    method Admit(longRunning: bool, key: Option<string>, now: int) returns (id: Option<OpId>)
      requires Admissible(config, View(), key, now)
      modifies this
      ensures View() == SubmitStep(config, old(View()), longRunning, key, now).0
      ensures id == SubmitStep(config, old(View()), longRunning, key, now).1
    {
      hide Prune, Supersede, Enqueue, Increasing, Distinct;
      if stop { return None; }
      PruneTerminals(config.maxTerminal - 1, now);
      SupersedeWaiting(key, now);
      if |queued| >= config.maxQueued { return None; }
      id := Some(nextId);
      Append(longRunning, key, now);
    }

    /** Cancel what waits under the same replace key. */
    method SupersedeWaiting(key: Option<string>, now: int)
      requires Distinct(queued) && forall id :: id in queued ==> id in records
      modifies this
      ensures View() == Supersede(old(View()), key, now)
    {
      hide CancelAll;
      var same := set x | x in queued && x in records && key.Some? && records[x].replaceKey == key;
      assert Selected(queued, same) == same;
      CancelWaiting(same, Some("superseded by replacement"), now);
    }

    /** A new record at the end of the queue, and everybody's position. */
    method Append(longRunning: bool, key: Option<string>, now: int)
      requires Increasing(queued) && forall x :: x in queued ==> x in records && x < nextId
      modifies this
      ensures View() == Enqueue(old(View()), longRunning, key, now)
    {
      hide UpdatePositions;
      var id := nextId;
      records := records[id := Record(longRunning, Queued, None, None, None, NO_OUTCOME, key, None, None, now, 0, false, None)];
      table := table + [id];
      queued := queued + [id];
      nextId := id + 1;
      Appended(old(queued), id, queued);
      Renumber();
    }

    /** The locked block of `cancel`; a started operation still has to be asked to stop. */
    method Cancel(id: OpId, now: int) returns (known: bool, ask: bool)
      requires Valid()
      modifies this
      ensures Valid() && View() == Step(config, old(View()), Event.Cancel(id, now))
      ensures known == (id in old(table))
      ensures ask == (known && old(records)[id].state in {Running, Publishing})
    {
      StepKeeps(config, View(), Event.Cancel(id, now));
      Basics(config, View());
      CancelIsStep(config, View(), id, now);
      if id in records && records[id].state == Queued { WaitingIsQueued(config, View(), id); }
      hide *;
      known, ask := CancelRecord(id, now);
    }

    method CancelRecord(id: OpId, now: int) returns (known: bool, ask: bool)
      requires Distinct(queued) && (forall x :: x in queued ==> x in records) && forall x :: x in table ==> x in records
      requires id in records && records[id].state == Queued ==> id in queued
      modifies this
      ensures View() == if id in old(table) && id in old(records) && old(records)[id].state == Queued
                        then CancelAll(old(View()), {id}, None, now) else old(View())
      ensures known == (id in old(table))
      ensures ask == (known && old(records)[id].state in {Running, Publishing})
    {
      hide CancelAll, Distinct;
      known, ask := id in table, false;
      if known {
        if records[id].state == Queued {
          assert Selected(queued, {id}) == {id};
          CancelWaiting({id}, None, now);
        } else if !Terminal(records[id].state) {
          ask := true;
        }
      }
    }

    /** The first locked block of `close`; the running operation still has to be asked to stop. */
    method Close(now: int) returns (cancel: Option<OpId>)
      requires Valid()
      modifies this
      ensures Valid() && View() == Step(config, old(View()), Event.Close(now)) && cancel == old(running)
    {
      StepKeeps(config, View(), Event.Close(now));
      Basics(config, View());
      CloseIsStep(config, View(), now);
      hide *;
      cancel := StopAll(now);
    }

    method StopAll(now: int) returns (cancel: Option<OpId>)
      requires Distinct(queued) && forall x :: x in queued ==> x in records
      modifies this
      ensures View() == CancelAll(old(View()).(stop := true), (set id | id in old(queued)), Some("engine shutting down"), now)
      ensures cancel == old(running)
    {
      hide CancelAll, Distinct;
      cancel := running;
      stop := true;
      var all := set id | id in queued;
      assert Selected(queued, all) == all;
      CancelWaiting(all, Some("engine shutting down"), now);
    }

    /** The block of `close` that ends an operation whose cancellation was claimed, or whose deadline passed. */
    method FinishOnClose(id: OpId, claimed: bool, now: int)
      requires Valid() && Enabled(View(), CloseFinish(id, claimed, now))
      modifies this
      ensures Valid() && View() == Step(config, old(View()), CloseFinish(id, claimed, now))
    {
      StepKeeps(config, View(), CloseFinish(id, claimed, now));
      if claimed {
        FinishRecordOf(id, Cancelled, Outcome(None, Some("engine shutting down"), None), now);
      } else {
        FinishRecordOf(id, Failed, Outcome(None, Some("engine shutdown hard deadline reached"), None), now);
      }
    }

    /** `wait` on entry: the record is kept from eviction while somebody waits. */
    method BeginWait(id: OpId) returns (known: bool)
      requires Valid()
      modifies this`records
      ensures Valid() && View() == Step(config, old(View()), WaitBegin(id)) && known == (id in old(table))
    {
      StepKeeps(config, View(), WaitBegin(id));
      Basics(config, View());
      hide Inv, Valid;
      known := id in table;
      if known { records := records[id := records[id].(waiters := records[id].waiters + 1)]; }
    }

    /** `wait` on the way out. */
    method EndWait(id: OpId)
      requires Valid() && Enabled(View(), WaitEnd(id))
      modifies this`records
      ensures Valid() && View() == Step(config, old(View()), WaitEnd(id))
    {
      StepKeeps(config, View(), WaitEnd(id));
      hide Inv, Valid;
      records := records[id := records[id].(waiters := records[id].waiters - 1)];
    }

    // -------------------------------------------------------------- the writer thread

    /** The block of `_run` that takes the next operation off the queue. */
    method StartNextOperation(now: int) returns (id: OpId)
      requires Valid() && running.None? && queued != [] && !stop
      modifies this
      ensures Valid() && View() == Step(config, old(View()), StartNext(now)) && id == old(queued)[0]
    {
      StartKeeps(config, View(), now);
      Basics(config, View());
      StartIsStep(config, View(), now);
      QueueTail(queued);
      hide *;
      id := PopAndStart(now);
    }

    method PopAndStart(now: int) returns (id: OpId)
      requires queued != [] && queued[0] in records
      requires Increasing(queued[1..]) && forall x :: x in queued[1..] ==> x in records
      modifies this
      ensures View() == StartStep(old(View()), now) && id == old(queued)[0]
    {
      hide UpdatePositions, Increasing;
      id := queued[0];
      queued := queued[1..];
      running := Some(id);
      executed := executed + [id];
      records := records[id := records[id].(state := Running, queuePosition := None, startedAt := Some(now), lastHeartbeat := now)];
      Renumber();
    }

    /** The heartbeat callback. */
    method Beat(id: OpId, progress: Option<int>, report: Option<string>, now: int)
      requires Valid() && Enabled(View(), Heartbeat(id, progress, report, now))
      modifies this`records
      ensures Valid() && View() == Step(config, old(View()), Heartbeat(id, progress, report, now))
    {
      StepKeeps(config, View(), Heartbeat(id, progress, report, now));
      ExecutedRecorded(config, View(), id);
      BeatIsStep(config, View(), id, progress, report, now);
      hide *;
      BeatRecord(id, progress, report, now);
    }

    method BeatRecord(id: OpId, progress: Option<int>, report: Option<string>, now: int)
      requires id in records
      modifies this`records
      ensures View() == Put(old(View()), id, HeartbeatRecord(old(records)[id], progress, report, now))
    {
      var r := records[id];
      if Terminal(r.state) {
        assert records[id := r] == records;
        return;
      }
      r := r.(lastHeartbeat := now, progress := progress);
      if r.phase !in INTENT { r := r.(phase := report); }
      if report == Some("publishing") && r.phase !in INTENT { r := r.(state := Publishing); }
      records := records[id := r];
    }

    /** The block of `_run` after `_execute` raised. */
    method ExecuteRaised(timeout: bool, message: string, now: int)
      requires Valid() && Enabled(View(), Raise(timeout, message, now))
      modifies this
      ensures Valid() && View() == Step(config, old(View()), Raise(timeout, message, now))
    {
      StepKeeps(config, View(), Raise(timeout, message, now));
      RunningRecorded(config, View());
      RaiseIsStep(config, View(), timeout, message, now);
      hide *;
      EndRaised(running.value, timeout, message, now);
    }

    method EndRaised(id: OpId, timeout: bool, message: string, now: int)
      requires id in records
      modifies this
      ensures View() == AfterRaise(old(View()), id, timeout, message, now)
    {
      var r := records[id];
      var state := if r.phase == Some("timing_out") || timeout then TimedOut
                   else if r.phase == Some("cancelling") then Cancelled else Failed;
      var error := if state == Cancelled then "operation cancelled" else message;
      FinishRecordOf(id, state, Outcome(None, Some(error), None), now);
      returned := true;
    }

    /** The block of `_run` after `_execute` returned; `ok` is false for a domain failure. */
    method ExecuteReturned(ok: bool, outcome: Outcome, now: int)
      requires Valid() && Enabled(View(), Return(ok, outcome, now))
      modifies this
      ensures Valid() && View() == Step(config, old(View()), Return(ok, outcome, now))
    {
      StepKeeps(config, View(), Return(ok, outcome, now));
      RunningRecorded(config, View());
      ReturnIsStep(config, View(), ok, outcome, now);
      hide *;
      EndReturned(running.value, ok, outcome, now);
    }

    method EndReturned(id: OpId, ok: bool, outcome: Outcome, now: int)
      requires id in records
      modifies this
      ensures View() == AfterReturn(old(View()), id, ok, outcome, now)
    {
      if !ok {
        FinishRecordOf(id, Failed, outcome, now);
      } else {
        var phase := records[id].phase;
        var state := if phase == Some("timing_out") then TimedOut
                     else if phase == Some("cancelling") then Cancelled else Succeeded;
        FinishRecordOf(id, state, outcome, now);
      }
      returned := true;
    }

    /** The `finally` block of `_run`. */
    method ReleaseWriter()
      requires Valid() && Enabled(View(), Release)
      modifies this`running, this`returned
      ensures Valid() && View() == Step(config, old(View()), Release)
    {
      StepKeeps(config, View(), Release);
      running, returned := None, false;
    }

    // -------------------------------------------------------------- cancellation requests

    /** The locked block of `_request_cancel` after `begin_cancel` has answered. */
    method MarkRequest(call: CallId)
      requires Valid() && call in calls && calls[call].Answered?
      modifies this
      ensures Valid() && View() == Step(config, old(View()), Mark(call))
    {
      MarkKeeps(config, View(), call);
      CallTarget(config, View(), call);
      MarkIsStep(config, View(), call);
      hide *;
      InstallIntent(call);
    }

    method InstallIntent(call: CallId)
      requires call in calls && calls[call].Answered? && calls[call].target in records
      modifies this
      ensures View() == MarkStep(old(View()), call)
    {
      var Answered(id, phase, answer) := calls[call];
      var r := records[id];
      match answer {
        case TooLate =>
          records := records[id := r.(tooLate := true)];
          calls := calls[call := Done(false)];
        case NotActive =>
          calls := calls[call := Done(false)];
        case Granted(claim) =>
          if Terminal(r.state) || running != Some(id) {
            ReleaseClaim(claim);
            calls := calls[call := Done(false)];
          } else {
            records := records[id := r.(claim := Some(claim), phase := Some(phase))];
            calls := calls[call := Installed(id, claim)];
          }
      }
    }

    /** The locked block after `finish_cancel`. */
    method ClearRequest(call: CallId)
      requires Valid() && call in calls && calls[call].Returned?
      modifies this
      ensures Valid() && View() == Step(config, old(View()), Clear(call))
    {
      ClearKeeps(config, View(), call);
      CallTarget(config, View(), call);
      ClearIsStep(config, View(), call);
      hide *;
      DropClaim(call);
    }

    method DropClaim(call: CallId)
      requires call in calls && calls[call].Returned? && calls[call].target in records
      modifies this
      ensures View() == ClearStep(old(View()), call)
    {
      var Returned(id, claim, done) := calls[call];
      records := records[id := records[id].(claim := None)];
      calls := calls[call := if done then Done(true) else Cleared(id, claim)];
    }

    /** The release after a failed `finish_cancel`, with the lock already given up. */
    method HandBackClaim(call: CallId)
      requires Valid() && call in calls && calls[call].Cleared?
      modifies this
      ensures Valid() && View() == Step(config, old(View()), HandBack(call))
    {
      HandBackKeeps(config, View(), call);
      hide Inv, Valid;
      ReleaseClaim(calls[call].claim);
      calls := calls[call := Done(false)];
    }

    /** The locked block of the callback path without claims. */
    method MarkIntent(id: OpId, phase: string)
      requires Valid() && Enabled(View(), LegacyMark(id, phase))
      modifies this`records
      ensures Valid() && View() == Step(config, old(View()), LegacyMark(id, phase))
    {
      StepKeeps(config, View(), LegacyMark(id, phase));
      hide Inv, Valid;
      if Terminal(records[id].state) || running != Some(id) { return; }
      records := records[id := records[id].(phase := Some(phase))];
    }

    /** The check of `_watch`: whether the operation is still live and a deadline has passed. */
    method Expired(id: OpId, now: int) returns (live: bool, expired: bool)
      requires Valid() && id in records
      ensures live == (!Terminal(records[id].state) && running == Some(id))
      ensures expired == (live && (now - records[id].startedAt.value >= HardTimeout(config, records[id])
                                   || now - records[id].lastHeartbeat >= SoftTimeout(config, records[id])))
    {
      LiveStarted(config, View(), id);
      var r := records[id];
      live := !Terminal(r.state) && running == Some(id);
      if !live { return live, false; }
      var hard, soft := config.hardTimeout, config.softTimeout;
      if r.longRunning { hard, soft := config.longHardTimeout, config.longSoftTimeout; }
      expired := now - r.startedAt.value >= hard || now - r.lastHeartbeat >= soft;
    }

    /** The last block of `_watch`: past the hard ceiling the timeout is recorded even without a claim. */
    method ForceTimeout(id: OpId, observed: int)
      requires Valid() && id in records
      modifies this`records
      ensures Valid() && View() == Step(config, old(View()), WatchForce(id, observed))
    {
      StepKeeps(config, View(), WatchForce(id, observed));
      LiveStarted(config, View(), id);
      var r := records[id];
      if Terminal(r.state) || running != Some(id) { return; }
      if observed - r.startedAt.value >= HardTimeout(config, r) {
        records := records[id := r.(phase := Some("timing_out"))];
      }
    }
  }

  function SoftTimeout(c: Config, r: Record): int { if r.longRunning then c.longSoftTimeout else c.softTimeout }

  ghost function Selected(s: seq<OpId>, hit: set<OpId>): set<OpId> { set id | id in s && id in hit }

  // Step, event by event.

  lemma SubmitIsStep(c: Config, q: Queue, longRunning: bool, key: Option<string>, at: int)
    ensures Step(c, q, Event.Submit(longRunning, key, at)) == SubmitStep(c, q, longRunning, key, at).0
  {
  }

  /** What the blocks of a submission rely on at each stage. */
  ghost predicate Admissible(c: Config, q: Queue, key: Option<string>, now: int) {
    var pruned := Prune(c, q, c.maxTerminal - 1, now);
    var left := Supersede(pruned, key, now);
    !q.stop ==>
      && Distinct(pruned.queued) && (forall id :: id in pruned.queued ==> id in pruned.records)
      && Increasing(left.queued) && (forall id :: id in left.queued ==> id in left.records && id < left.nextId)
  }

  lemma Submissions(c: Config, q: Queue, longRunning: bool, key: Option<string>, now: int)
    requires Inv(c, q)
    ensures Admissible(c, q, key, now)
  {
    if !q.stop {
      var pruned := Prune(c, q, c.maxTerminal - 1, now);
      var left := Supersede(pruned, key, now);
      PruneKeeps(c, q, c.maxTerminal - 1, now);
      SupersedeKeeps(c, pruned, key, now);
      Basics(c, pruned);
      Basics(c, left);
      hide *;
    }
  }

  lemma CancelIsStep(c: Config, q: Queue, id: OpId, at: int)
    ensures Step(c, q, Event.Cancel(id, at)) ==
            if id in q.table && id in q.records && q.records[id].state == Queued then CancelAll(q, {id}, None, at) else q
  {
  }

  lemma CloseIsStep(c: Config, q: Queue, at: int)
    ensures Step(c, q, Event.Close(at)) ==
            CancelAll(q.(stop := true), (set id | id in q.queued), Some("engine shutting down"), at)
  {
  }

  lemma StartIsStep(c: Config, q: Queue, at: int)
    requires Enabled(q, StartNext(at))
    ensures Step(c, q, StartNext(at)) == StartStep(q, at)
  {
  }

  lemma BeatIsStep(c: Config, q: Queue, id: OpId, progress: Option<int>, report: Option<string>, at: int)
    requires Enabled(q, Heartbeat(id, progress, report, at)) && id in q.records
    ensures Step(c, q, Heartbeat(id, progress, report, at)) == Put(q, id, HeartbeatRecord(q.records[id], progress, report, at))
  {
  }

  ghost function AfterRaise(q: Queue, id: OpId, timeout: bool, message: string, at: int): Queue
    requires id in q.records
  {
    var state := RaisedState(q.records[id], timeout);
    var error := if state == Cancelled then "operation cancelled" else message;
    Finish(q, id, state, Outcome(None, Some(error), None), at).(returned := true)
  }

  lemma RaiseIsStep(c: Config, q: Queue, timeout: bool, message: string, at: int)
    requires Enabled(q, Raise(timeout, message, at)) && q.running.value in q.records
    ensures Step(c, q, Raise(timeout, message, at)) == AfterRaise(q, q.running.value, timeout, message, at)
  {
  }

  ghost function AfterReturn(q: Queue, id: OpId, ok: bool, outcome: Outcome, at: int): Queue
    requires id in q.records
  {
    Finish(q, id, ReturnedState(q.records[id], ok), outcome, at).(returned := true)
  }

  lemma ReturnIsStep(c: Config, q: Queue, ok: bool, outcome: Outcome, at: int)
    requires Enabled(q, Return(ok, outcome, at)) && q.running.value in q.records
    ensures Step(c, q, Return(ok, outcome, at)) == AfterReturn(q, q.running.value, ok, outcome, at)
  {
  }

  lemma MarkIsStep(c: Config, q: Queue, call: CallId)
    requires Enabled(q, Mark(call))
    ensures Step(c, q, Mark(call)) == MarkStep(q, call)
  {
  }

  lemma ClearIsStep(c: Config, q: Queue, call: CallId)
    requires Enabled(q, Clear(call))
    ensures Step(c, q, Clear(call)) == ClearStep(q, call)
  {
  }

  lemma Basics(c: Config, q: Queue)
    requires Inv(c, q)
    ensures Increasing(q.queued) && Distinct(q.queued) && forall id :: id in q.queued ==> id in q.records && id < q.nextId
    ensures forall id :: id in q.table ==> id in q.records
  {
  }

  lemma CallTarget(c: Config, q: Queue, call: CallId)
    requires Inv(c, q) && call in q.calls && (q.calls[call].Answered? || q.calls[call].Returned?)
    ensures q.calls[call].target in q.records
  {
  }

  lemma RunningRecorded(c: Config, q: Queue)
    requires Inv(c, q)
    ensures q.running.Some? ==> q.running.value in q.records
  {
  }

  lemma ExecutedRecorded(c: Config, q: Queue, id: OpId)
    requires Inv(c, q) && id in q.executed
    ensures id in q.records
  {
  }

  lemma QueueTail(s: seq<OpId>)
    requires Increasing(s) && s != []
    ensures Increasing(s[1..]) && s[0] in s && forall x :: x in s[1..] ==> x in s
  {
  }

  /** The records once the first i waiting operations have their positions. */
  ghost function Positions(start: map<OpId, Record>, queued: seq<OpId>, i: nat): map<OpId, Record>
    requires i <= |queued|
  {
    map id | id in start ::
      if id in queued[..i] then start[id].(queuePosition := Some(IndexOf(queued, id) + 1)) else start[id]
  }

  lemma PositionsStart(start: map<OpId, Record>, queued: seq<OpId>)
    ensures Positions(start, queued, 0) == start
  {
  }

  lemma PositionsNext(start: map<OpId, Record>, queued: seq<OpId>, i: nat)
    requires Increasing(queued) && i < |queued| && queued[i] in start
    ensures var before, id := Positions(start, queued, i), queued[i];
            id in before && Positions(start, queued, i + 1) == before[id := before[id].(queuePosition := Some(i + 1))]
  {
    var id := queued[i];
    IndexOfSpec(queued, i);
    assert queued[..i + 1] == queued[..i] + [id];
    assert forall j :: 0 <= j < i ==> queued[j] != id;
    hide Increasing, IndexOf;
  }

  lemma PositionsEnd(q: Queue)
    ensures q.(records := Positions(q.records, q.queued, |q.queued|)) == UpdatePositions(q)
  {
  }

  lemma LiveStarted(c: Config, q: Queue, id: OpId)
    requires Inv(c, q) && id in q.records
    ensures !Terminal(q.records[id].state) && q.running == Some(id) ==> q.records[id].startedAt.Some?
  {
  }

  lemma WaitingIsQueued(c: Config, q: Queue, id: OpId)
    requires Inv(c, q) && id in q.records && q.records[id].state == Queued
    ensures id in q.queued
  {
  }

  lemma Appended(s: seq<OpId>, id: OpId, t: seq<OpId>)
    requires Increasing(s) && (forall x :: x in s ==> x < id) && t == s + [id]
    ensures Increasing(t)
  {
    forall i, j | 0 <= i < j < |t|
      ensures t[i] < t[j]
    {
      assert s[i] in s;
    }
  }

  lemma CancelNone(q: Queue, error: Option<string>, now: int)
    ensures CancelAll(q, {}, error, now) == q
  {
    WithoutEmpty(q.queued);
    assert (map id | id in q.records :: q.records[id]) == q.records;
  }

  lemma {:induction false} WithoutEmpty(s: seq<OpId>)
    ensures Without(s, {}) == s
  {
    if s != [] { WithoutEmpty(s[1..]); }
  }

  lemma {:induction false} WithoutTwice(s: seq<OpId>, a: set<OpId>, b: set<OpId>)
    ensures Without(Without(s, a), b) == Without(s, a + b)
  {
    if s != [] {
      WithoutTwice(s[1..], a, b);
      if s[0] !in a {
        assert Without(s, a)[1..] == Without(s[1..], a);
      }
    }
  }

  /** Cancelling one more waiting operation. */
  lemma CancelOne(q: Queue, hit: set<OpId>, id: OpId, error: Option<string>, now: int)
    requires id in q.records && id !in hit
    ensures var q1 := CancelAll(q, hit, error, now);
            && id in q1.records
            && Finish(q1.(queued := Without(q1.queued, {id})), id, Cancelled, Outcome(None, error, None), now)
            == CancelAll(q, hit + {id}, error, now)
  {
    WithoutTwice(q.queued, hit, {id});
    var q1 := CancelAll(q, hit, error, now);
    var q2 := CancelAll(q, hit + {id}, error, now);
    assert q1.records[id] == q.records[id];
    assert q1.records[id := FinishRecord(q.records[id], Cancelled, Outcome(None, error, None), now)] == q2.records;
    assert q1.released + ClaimOf(q.records[id]) == q2.released;
  }
}
