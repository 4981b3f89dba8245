/** What each step of the operation queue does to the records (operations.py). */
module QueueMeaning {
  import opened Wrappers
  import opened QueueSteps
  import opened QueueSafety

  /** Nothing but the record of `id` has changed among the records. */
  predicate OnlyRecord(q: Queue, q': Queue, id: OpId) {
    && q'.records.Keys == q.records.Keys
    && forall x :: x in q.records && x != id ==> q'.records[x] == q.records[x]
  }

  // ---------------------------------------------------------------- how an operation ends

  /** `_execute` returns. A live record gets the outcome and ends succeeded exactly when the result is not a failure and
      nobody has asked it to stop, failed exactly when it is, and by its intent otherwise. */
  lemma ReturnMeaning(c: Config, q: Queue, ok: bool, outcome: Outcome, now: int)
    requires Inv(c, q) && q.running.Some? && !q.returned
    ensures var q', id := Step(c, q, Return(ok, outcome, now)), q.running.value;
            && id in q.records && OnlyRecord(q, q', id) && q'.returned && q'.running == q.running
            && var r, r' := q.records[id], q'.records[id];
               if r.state in {Succeeded, Failed, Cancelled, TimedOut} then r' == r
               else
                 && r'.outcome == outcome && r'.finishedAt == Some(now) && r'.phase == r.phase
                 && r'.claim.None? && r'.queuePosition.None?
                 && (r'.state == Succeeded <==> ok && r.phase != Some("timing_out") && r.phase != Some("cancelling"))
                 && (r'.state == Failed <==> !ok)
                 && (r'.state == TimedOut <==> ok && r.phase == Some("timing_out"))
                 && (r'.state == Cancelled <==> ok && r.phase == Some("cancelling"))
  {
    RunningRecord(c, q);
    hide Inv;
  }

  /** `_execute` raises. A live record ends timed out when that is its intent or the kind of exception, else cancelled when
      that is its intent, else failed; the error is the message, except for a cancellation. */
  lemma RaiseMeaning(c: Config, q: Queue, timeout: bool, message: string, now: int)
    requires Inv(c, q) && q.running.Some? && !q.returned
    ensures var q', id := Step(c, q, Raise(timeout, message, now)), q.running.value;
            && id in q.records && OnlyRecord(q, q', id) && q'.returned && q'.running == q.running
            && var r, r' := q.records[id], q'.records[id];
               if r.state in {Succeeded, Failed, Cancelled, TimedOut} then r' == r
               else
                 && r'.outcome.result.None? && r'.outcome.details.None? && r'.finishedAt == Some(now) && r'.phase == r.phase
                 && r'.claim.None? && r'.queuePosition.None?
                 && (r'.state == TimedOut <==> timeout || r.phase == Some("timing_out"))
                 && (r'.state == Cancelled <==> !timeout && r.phase == Some("cancelling"))
                 && (r'.state == Failed <==> !timeout && r.phase != Some("timing_out") && r.phase != Some("cancelling"))
                 && r'.outcome.error == Some(if r'.state == Cancelled then "operation cancelled" else message)
  {
    RunningRecord(c, q);
    hide Inv;
  }

  lemma RunningRecord(c: Config, q: Queue)
    requires Inv(c, q)
    ensures q.running.Some? ==> q.running.value in q.records && q.records[q.running.value].state != Queued
    ensures forall id :: id in q.executed ==> id in q.records && q.records[id].state != Queued
  {
    forall id | id in q.executed
      ensures id in q.records && q.records[id].state != Queued
    {
      assert RecordInv(q, id);
    }
  }

  /** Shutdown ends a live record as cancelled when its cancellation was claimed, else as failed; one that has ended stays. */
  lemma CloseFinishMeaning(c: Config, q: Queue, id: OpId, claimed: bool, now: int)
    requires Inv(c, q) && q.stop && id in q.executed
    ensures var q' := Step(c, q, CloseFinish(id, claimed, now));
            && id in q.records && OnlyRecord(q, q', id)
            && var r, r' := q.records[id], q'.records[id];
               if r.state in {Succeeded, Failed, Cancelled, TimedOut} then r' == r
               else
                 && r'.state == (if claimed then Cancelled else Failed) && r'.finishedAt == Some(now) && r'.phase == r.phase
                 && r'.outcome == Outcome(None, Some(if claimed then "engine shutting down"
                                                     else "engine shutdown hard deadline reached"), None)
  {
    RunningRecord(c, q);
    hide Inv;
  }

  // ---------------------------------------------------------------- the queue

  /** Ended in the queue, without ever running. */
  predicate Dropped(r: Record, r': Record, error: Option<string>, now: int) {
    r' == r.(state := Cancelled, queuePosition := None, outcome := Outcome(None, error, None), finishedAt := Some(now))
  }

  /** The waiting operations `hit` are dropped; the others keep their order, and every other record is untouched. */
  ghost predicate Drops(q: Queue, q': Queue, hit: set<OpId>, error: Option<string>, now: int) {
    && q'.records.Keys == q.records.Keys
    && (forall id :: id in hit ==> id in q.records && Dropped(q.records[id], q'.records[id], error, now))
    && (forall id :: id in q.records && id !in hit ==> q'.records[id] == q.records[id])
    && (forall id :: id in q'.queued <==> id in q.queued && id !in hit)
    && Increasing(q'.queued)
    && q'.running == q.running && q'.executed == q.executed && q'.table == q.table && q'.nextId == q.nextId
  }

  lemma CancelAllDrops(c: Config, q: Queue, hit: set<OpId>, error: Option<string>, now: int)
    requires Inv(c, q) && forall id :: id in hit ==> id in q.queued
    ensures Drops(q, CancelAll(q, hit, error, now), hit, error, now)
  {
    WithoutSpec(q.queued, hit);
    CancelAllQueue(c, q, hit, error, now);
    CancelAllRecords(c, q, hit, error, now);
    hide Inv, Dropped, Without;
  }

  lemma CancelAllRecords(c: Config, q: Queue, hit: set<OpId>, error: Option<string>, now: int)
    requires Inv(c, q) && forall id :: id in hit ==> id in q.queued
    ensures var q' := CancelAll(q, hit, error, now);
            && q'.records.Keys == q.records.Keys
            && (forall id :: id in hit ==> id in q.records && Dropped(q.records[id], q'.records[id], error, now))
            && (forall id :: id in q.records && id !in hit ==> q'.records[id] == q.records[id])
  {
    forall id | id in hit
      ensures id in q.records && Dropped(q.records[id], CancelAll(q, hit, error, now).records[id], error, now)
    {
      assert RecordInv(q, id);
    }
    hide Inv, RecordInv, Dropped;
  }

  /** Cancelling a waiting operation drops it, and moves no other; cancelling any other changes nothing under the lock. */
  lemma CancelMeaning(c: Config, q: Queue, id: OpId, now: int)
    requires Inv(c, q)
    ensures var q' := Step(c, q, Cancel(id, now));
            if id in q.table && id in q.queued then Drops(q, q', {id}, None, now) else q' == q
  {
    if id in q.records {
      assert RecordInv(q, id);
      if id in q.queued { CancelAllDrops(c, q, {id}, None, now); }
    }
    hide Inv, CancelAll;
  }

  /** Closing drops everything that waits, and stops the queue. */
  lemma CloseMeaning(c: Config, q: Queue, now: int)
    requires Inv(c, q)
    ensures var q' := Step(c, q, Close(now));
            && q'.stop && q'.queued == []
            && Drops(q, q', (set id | id in q.queued), Some("engine shutting down"), now)
  {
    var hit := set id | id in q.queued;
    CancelAllDrops(c, q, hit, Some("engine shutting down"), now);
    var q' := Step(c, q, Close(now));
    assert q' == CancelAll(q, hit, Some("engine shutting down"), now).(stop := true);
    hide Inv, CancelAll;
    SomeElement(q'.queued);
  }

  lemma SomeElement(s: seq<OpId>)
    ensures s == [] || exists x :: x in s
  {
    if s != [] { assert s[0] in s; }
  }

  /** The writer takes the head, which starts running; the others move up and are numbered from one. */
  lemma StartMeaning(c: Config, q: Queue, now: int)
    requires Inv(c, q) && q.running.None? && q.queued != [] && !q.stop
    ensures var q', id := Step(c, q, StartNext(now)), q.queued[0];
            && id in q.records && q'.running == Some(id) && q'.executed == q.executed + [id] && q'.queued == q.queued[1..]
            && q'.records.Keys == q.records.Keys
            && q'.records[id] == q.records[id].(state := Running, queuePosition := None, startedAt := Some(now), lastHeartbeat := now)
            && (forall x :: x in q.records && x != id && x !in q.queued ==> q'.records[x] == q.records[x])
            && (forall i :: 0 <= i < |q'.queued| ==>
                  q'.queued[i] in q.records
                  && q'.records[q'.queued[i]] == q.records[q'.queued[i]].(queuePosition := Some(i + 1)))
  {
    var next := Started(q, now);
    StartIs(c, q, now);
    StartedInOrder(c, q, now);
    hide *;
    Numbering(next);
    forall i | 0 <= i < |next.queued|
      ensures UpdatePositions(next).records[next.queued[i]] == q.records[next.queued[i]].(queuePosition := Some(i + 1))
    {
      assert next.queued[i] in next.queued;
    }
  }

  /** The head taken out and running, before the others are numbered. */
  ghost function Started(q: Queue, now: int): Queue
    requires q.queued != [] && q.queued[0] in q.records
  {
    var id := q.queued[0];
    var r := q.records[id].(state := Running, queuePosition := None, startedAt := Some(now), lastHeartbeat := now);
    Put(q, id, r).(queued := q.queued[1..], running := Some(id), executed := q.executed + [id])
  }

  lemma StartIs(c: Config, q: Queue, now: int)
    requires q.running.None? && q.queued != [] && !q.stop && q.queued[0] in q.records
    ensures Step(c, q, StartNext(now)) == UpdatePositions(Started(q, now))
  {
    hide UpdatePositions;
  }

  lemma StartedInOrder(c: Config, q: Queue, now: int)
    requires Inv(c, q) && q.queued != []
    ensures q.queued[0] in q.records
    ensures var next, id := Started(q, now), q.queued[0];
            && next.queued == q.queued[1..] && next.running == Some(id) && next.executed == q.executed + [id]
            && next.records.Keys == q.records.Keys && Increasing(next.queued)
            && next.records[id] == q.records[id].(state := Running, queuePosition := None, startedAt := Some(now), lastHeartbeat := now)
            && (forall x :: x in q.records && x != id ==> next.records[x] == q.records[x])
            && (forall x :: x in q.queued <==> x == id || x in next.queued) && id !in next.queued
            && (forall x :: x in next.queued ==> x in q.records)
  {
    assert q.queued[0] in q.queued;
    var next, id := Started(q, now), q.queued[0];
    assert forall x :: x in q.queued <==> x == id || x in next.queued;
    hide RecordInv, WriterInv, CallsInv;
    assert Increasing(next.queued) && id !in next.queued;
  }

  /** Renumbering gives every waiting record its place, and touches no other. */
  lemma Numbering(q: Queue)
    requires Increasing(q.queued) && forall x :: x in q.queued ==> x in q.records
    ensures var q' := UpdatePositions(q);
            && q' == q.(records := q'.records) && q'.records.Keys == q.records.Keys
            && (forall x :: x in q.records && x !in q.queued ==> q'.records[x] == q.records[x])
            && (forall i :: 0 <= i < |q.queued| ==> q'.records[q.queued[i]] == q.records[q.queued[i]].(queuePosition := Some(i + 1)))
  {
    forall i | 0 <= i < |q.queued|
      ensures UpdatePositions(q).records[q.queued[i]] == q.records[q.queued[i]].(queuePosition := Some(i + 1))
    {
      Renumbered(q, i);
    }
  }

  /** What waits under the key of a submission. */
  ghost function SameKey(q: Queue, key: Option<string>): set<OpId>
    requires forall id :: id in q.queued ==> id in q.records
  {
    set id | id in q.queued && key.Some? && q.records[id].replaceKey == key
  }

  /** A new record at the end of the queue; what waits before it is numbered from one and otherwise as it was. */
  ghost predicate Admitted(q: Queue, q': Queue, id: OpId, longRunning: bool, key: Option<string>, now: int, rivals: set<OpId>) {
    && id !in q.records && q'.records.Keys == q.records.Keys + {id} && id in q'.table
    && q'.records[id] == Record(longRunning, Queued, Some(|q'.queued|), None, None, NO_OUTCOME, key, None, None, now, 0, false, None)
    && q'.queued != [] && |q'.queued| == |q.queued| - |rivals| + 1 && q'.queued[|q'.queued| - 1] == id
    && (forall x :: x in q'.queued <==> x == id || (x in q.queued && x !in rivals))
    && (forall i :: 0 <= i < |q'.queued| - 1 ==>
          var x := q'.queued[i];
          x in q.queued && x !in rivals && x in q.records && q'.records[x] == q.records[x].(queuePosition := Some(i + 1)))
    && q'.running == q.running && q'.executed == q.executed
  }

  /** A submission is accepted exactly when the queue is open and has room once its rivals are gone, which it drops as soon
      as the queue is open. Accepted, it goes to the end of the queue; refused, it leaves everything else as it was. */
  lemma SubmitMeaning(c: Config, q: Queue, longRunning: bool, key: Option<string>, now: int)
    requires Inv(c, q)
    ensures var (q', made) := SubmitStep(c, q, longRunning, key, now);
            var rivals := SameKey(q, key);
            && Step(c, q, Submit(longRunning, key, now)) == q'
            && (made.Some? <==> !q.stop && |q.queued| - |rivals| < c.maxQueued)
            && (q.stop ==> q' == q)
            && (!q.stop ==> forall id :: id in rivals ==>
                  && id in q.records && id in q'.records && id !in q'.queued
                  && Dropped(q.records[id], q'.records[id], Some("superseded by replacement"), now))
            && (forall id :: id in q.records && id !in q.queued ==> id in q'.records && q'.records[id] == q.records[id])
            && (made.Some? ==> Admitted(q, q', made.value, longRunning, key, now, rivals))
            && (made.None? && !q.stop ==> Drops(q.(table := q'.table), q', rivals, Some("superseded by replacement"), now))
  {
    if !q.stop {
      var q1 := Prune(c, q, c.maxTerminal - 1, now);
      var q2 := Supersede(q1, key, now);
      SupersededMeaning(c, q, q1, q2, key, now);
      assert SubmitStep(c, q, longRunning, key, now) ==
             if |q2.queued| >= c.maxQueued then (q2, None) else (Enqueue(q2, longRunning, key, now), Some(q2.nextId));
      KnownIds(c, q);
      hide Inv, SubmitStep, Dropped, Prune, Supersede, Enqueue;
      if |q2.queued| < c.maxQueued { SubmitAdmits(q, q2, longRunning, key, now, SameKey(q, key)); }
      hide Increasing, Admitted;
    }
  }

  lemma SubmitAdmits(q: Queue, q2: Queue, longRunning: bool, key: Option<string>, now: int, rivals: set<OpId>)
    requires forall id :: id in q.queued ==> id in q.records
    requires q.nextId !in q.records && forall id :: id in q.records ==> id < q.nextId
    requires Drops(q.(table := q2.table), q2, rivals, Some("superseded by replacement"), now) && rivals == SameKey(q, key)
    requires |q2.queued| == |q.queued| - |rivals|
    ensures var q' := Enqueue(q2, longRunning, key, now);
            && Admitted(q, q', q2.nextId, longRunning, key, now, rivals)
            && (forall id :: id in rivals ==>
                  && id in q.records && id in q'.records && id !in q'.queued
                  && Dropped(q.records[id], q'.records[id], Some("superseded by replacement"), now))
            && (forall id :: id in q.records && id !in q.queued ==> id in q'.records && q'.records[id] == q.records[id])
  {
    hide Dropped, Enqueue;
    EnqueueMeaning(q2, longRunning, key, now);
    var q' := Enqueue(q2, longRunning, key, now);
    forall i | 0 <= i < |q'.queued| - 1
      ensures var x := q'.queued[i];
              x in q.queued && x !in rivals && x in q.records && q'.records[x] == q.records[x].(queuePosition := Some(i + 1))
    {
      assert q'.queued[i] == q2.queued[i] && q2.queued[i] in q2.queued;
    }
    assert forall id :: id in rivals ==> id in q.queued && id != q2.nextId;
  }

  lemma KnownIds(c: Config, q: Queue)
    requires Inv(c, q)
    ensures q.nextId !in q.records && forall id :: id in q.records ==> id < q.nextId
    ensures forall id :: id in q.queued ==> id in q.records
  {
  }

  lemma SupersededMeaning(c: Config, q: Queue, q1: Queue, q2: Queue, key: Option<string>, now: int)
    requires Inv(c, q) && q1 == Prune(c, q, c.maxTerminal - 1, now) && q2 == Supersede(q1, key, now)
    ensures var rivals := SameKey(q, key);
            && Drops(q.(table := q2.table), q2, rivals, Some("superseded by replacement"), now)
            && |q2.queued| == |q.queued| - |rivals|
  {
    PruneKeeps(c, q, c.maxTerminal - 1, now);
    var rivals := SameKey(q, key);
    assert q1 == q.(table := q1.table) && Increasing(q.queued);
    SupersedeIs(q1, key, now, rivals);
    hide Prune, Supersede, CancelAll;
    CancelAllDrops(c, q1, rivals, Some("superseded by replacement"), now);
    hide Inv;
    RivalsGone(q, q2, rivals);
  }

  lemma SupersedeIs(q: Queue, key: Option<string>, now: int, rivals: set<OpId>)
    requires (forall id :: id in q.queued ==> id in q.records) && rivals == SameKey(q, key)
    ensures Supersede(q, key, now) == CancelAll(q, rivals, Some("superseded by replacement"), now)
  {
    hide CancelAll;
    assert Rivals(q, key) == rivals;
  }

  /** The queue is shorter by exactly what was dropped. */
  lemma RivalsGone(q: Queue, q': Queue, hit: set<OpId>)
    requires Increasing(q.queued) && Increasing(q'.queued) && forall id :: id in hit ==> id in q.queued
    requires forall id :: id in q'.queued <==> id in q.queued && id !in hit
    ensures |q'.queued| == |q.queued| - |hit|
  {
    IncreasingSize(q.queued);
    IncreasingSize(q'.queued);
    assert Elements(q.queued) == Elements(q'.queued) + hit;
  }

  lemma IncreasingSize(s: seq<OpId>)
    requires Increasing(s)
    ensures |Elements(s)| == |s|
  {
    DistinctSize(s, Elements(s));
    ElementsSize(s);
  }

  lemma EnqueueMeaning(q: Queue, longRunning: bool, key: Option<string>, now: int)
    requires Increasing(q.queued) && (forall x :: x in q.queued ==> x in q.records && x < q.nextId) && q.nextId !in q.records
    ensures var q', id := Enqueue(q, longRunning, key, now), q.nextId;
            && q'.queued == q.queued + [id] && q'.table == q.table + [id]
            && q'.records.Keys == q.records.Keys + {id} && q'.running == q.running && q'.executed == q.executed
            && q'.records[id] == Record(longRunning, Queued, Some(|q'.queued|), None, None, NO_OUTCOME, key, None, None, now,
                                        0, false, None)
            && (forall x :: x in q.records && x !in q.queued ==> q'.records[x] == q.records[x])
            && (forall i :: 0 <= i < |q.queued| ==>
                  q'.records[q.queued[i]] == q.records[q.queued[i]].(queuePosition := Some(i + 1)))
  {
    var next := Entered(q, longRunning, key, now);
    EnqueueIs(q, longRunning, key, now);
    EnteredInOrder(q, longRunning, key, now);
    hide Enqueue, UpdatePositions, Increasing;
    Numbering(next);
    assert next.queued[|q.queued|] == q.nextId;
    forall i | 0 <= i < |q.queued|
      ensures UpdatePositions(next).records[q.queued[i]] == q.records[q.queued[i]].(queuePosition := Some(i + 1))
    {
      assert q.queued[i] in q.queued && next.queued[i] == q.queued[i];
    }
  }

  /** A new record at the end of the queue, before it is numbered. */
  ghost function Entered(q: Queue, longRunning: bool, key: Option<string>, now: int): Queue {
    var id := q.nextId;
    var r := Record(longRunning, Queued, None, None, None, NO_OUTCOME, key, None, None, now, 0, false, None);
    Put(q, id, r).(table := q.table + [id], queued := q.queued + [id], nextId := id + 1)
  }

  lemma EnqueueIs(q: Queue, longRunning: bool, key: Option<string>, now: int)
    ensures Enqueue(q, longRunning, key, now) == UpdatePositions(Entered(q, longRunning, key, now))
  {
    hide UpdatePositions;
  }

  lemma EnteredInOrder(q: Queue, longRunning: bool, key: Option<string>, now: int)
    requires Increasing(q.queued) && forall x :: x in q.queued ==> x in q.records && x < q.nextId
    ensures var next := Entered(q, longRunning, key, now);
            Increasing(next.queued) && forall x :: x in next.queued ==> x in next.records
  {
    var next := Entered(q, longRunning, key, now);
    forall i, j | 0 <= i < j < |next.queued|
      ensures next.queued[i] < next.queued[j]
    {
      assert q.queued[i] in q.queued;
    }
  }

  // ---------------------------------------------------------------- heartbeats, requests and watchers

  /** A heartbeat of a live operation records time and progress. Its phase is taken unless the operation is stopping, and only
      then does the phase "publishing" make it publish. A heartbeat after the end changes nothing. */
  lemma HeartbeatMeaning(c: Config, q: Queue, id: OpId, progress: Option<int>, report: Option<string>, now: int)
    requires Inv(c, q) && id in q.executed
    ensures var q' := Step(c, q, Heartbeat(id, progress, report, now));
            && id in q.records && OnlyRecord(q, q', id)
            && var r, r' := q.records[id], q'.records[id];
               if r.state in {Succeeded, Failed, Cancelled, TimedOut} then r' == r
               else
                 && r' == r.(lastHeartbeat := now, progress := progress, phase := r'.phase, state := r'.state)
                 && (if r.phase == Some("timing_out") || r.phase == Some("cancelling") then r'.phase == r.phase && r'.state == r.state
                     else r'.phase == report && r'.state == if report == Some("publishing") then Publishing else r.state)
  {
    RunningRecord(c, q);
    hide Inv;
  }

  /** What the thread of a cancellation request does once `begin_cancel` has answered. Too late: it leaves a mark. Not active:
      nothing. A claim: on the operation that runs it is put down together with the intent; otherwise it is given back. */
  lemma MarkMeaning(c: Config, q: Queue, call: CallId)
    requires Inv(c, q) && call in q.calls && q.calls[call].Answered?
    ensures var q', id := Step(c, q, Mark(call)), q.calls[call].target;
            && id in q.records && OnlyRecord(q, q', id)
            && var r, r' := q.records[id], q'.records[id];
               match q.calls[call].answer
               case TooLate => r' == r.(tooLate := true) && q'.calls[call] == Done(false) && q'.released == q.released
               case NotActive => r' == r && q'.calls[call] == Done(false) && q'.released == q.released
               case Granted(claim) =>
                 if r.state in {Running, Publishing} && q.running == Some(id)
                 then r' == r.(claim := Some(claim), phase := Some(q.calls[call].phase))
                      && q'.calls[call] == Installed(id, claim) && q'.released == q.released
                 else r' == r && q'.calls[call] == Done(false) && q'.released == q.released + {claim}
  {
    RequestTarget(c, q, call);
    assert Step(c, q, Mark(call)) == MarkStep(q, call);
    hide Inv, Step;
  }

  /** After `finish_cancel` the record lets go of its claim; one that was not finished is still to be given back. */
  lemma ClearMeaning(c: Config, q: Queue, call: CallId)
    requires Inv(c, q) && call in q.calls && q.calls[call].Returned?
    ensures var q', id := Step(c, q, Clear(call)), q.calls[call].target;
            && id in q.records && OnlyRecord(q, q', id) && q'.records[id] == q.records[id].(claim := None)
            && q'.released == q.released
            && q'.calls[call] == if q.calls[call].finished then Done(true) else Cleared(id, q.calls[call].claim)
  {
    RequestTarget(c, q, call);
    hide Inv;
  }

  lemma RequestTarget(c: Config, q: Queue, call: CallId)
    requires Inv(c, q) && call in q.calls && (q.calls[call].Answered? || q.calls[call].Returned?)
    ensures var id := q.calls[call].target;
            && id in q.records
            && (q.running == Some(id) && !Terminal(q.records[id].state) ==> q.records[id].state in {Running, Publishing})
  {
    RunningRecord(c, q);
    var id := q.calls[call].target;
    assert id in q.records;
    assert q.running == Some(id) ==> q.records[id].state != Queued;
    hide Inv;
    var state := q.records[id].state;
    match state {
      case _ =>
    }
  }

  /** The intent of a request without claims reaches the operation that runs and no other. */
  lemma IntentMeaning(c: Config, q: Queue, id: OpId, phase: string)
    requires Inv(c, q) && id in q.records && (phase == "timing_out" || phase == "cancelling")
    ensures var q', r := Step(c, q, LegacyMark(id, phase)), q.records[id];
            && OnlyRecord(q, q', id)
            && q'.records[id] == if Runs(q, id) then r.(phase := Some(phase)) else r
  {
    RunsLive(c, q, id);
    hide Inv, Runs;
  }

  /** So does that of a watcher, when the hard ceiling for the operation has passed. */
  lemma ForceMeaning(c: Config, q: Queue, id: OpId, observed: int)
    requires Inv(c, q) && id in q.records
    ensures var q', r := Step(c, q, WatchForce(id, observed)), q.records[id];
            && OnlyRecord(q, q', id)
            && (Runs(q, id) ==> r.startedAt.Some?)
            && q'.records[id] ==
               if Runs(q, id) && observed - r.startedAt.value >= (if r.longRunning then c.longHardTimeout else c.hardTimeout)
               then r.(phase := Some("timing_out")) else r
  {
    RunsLive(c, q, id);
    hide Inv, Runs;
  }

  predicate Runs(q: Queue, id: OpId)
    requires id in q.records
  {
    q.running == Some(id) && (q.records[id].state == Running || q.records[id].state == Publishing)
  }

  lemma RunsLive(c: Config, q: Queue, id: OpId)
    requires Inv(c, q) && id in q.records
    ensures Runs(q, id) <==> q.running == Some(id) && !Terminal(q.records[id].state)
    ensures Runs(q, id) ==> q.records[id].startedAt.Some?
  {
    RunningRecord(c, q);
    assert RecordInv(q, id);
  }

  /** A waiter is counted on an addressable record, and taken back. */
  lemma WaitMeaning(c: Config, q: Queue, id: OpId)
    requires Inv(c, q) && id in q.records
    ensures var q' := Step(c, q, WaitBegin(id));
            OnlyRecord(q, q', id) && q'.records[id] == q.records[id].(waiters := q.records[id].waiters + if id in q.table then 1 else 0)
    ensures q.records[id].waiters > 0 ==>
              var q' := Step(c, q, WaitEnd(id));
              OnlyRecord(q, q', id) && q'.records[id] == q.records[id].(waiters := q.records[id].waiters - 1)
  {
    hide Inv;
  }

  // ---------------------------------------------------------------- pruning

  /** Pruning drops every aged record, and beyond those only as many of the others as it takes to get down to the wanted size;
      it stops short of that only when nothing is left to evict. */
  lemma PruneExact(c: Config, q: Queue, target: int, now: int)
    requires Inv(c, q)
    ensures var q' := Prune(c, q, target, now);
            && q' == q.(table := q'.table)
            && (forall id :: id in q'.table ==> id in q.table && !Aged(q, id, now, c.maxAge))
            && (|q'.table| <= target || forall id :: id in q'.table ==> !Evictable(q, id))
            && ((exists id :: id in q.table && id !in q'.table && !Aged(q, id, now, c.maxAge)) ==> |q'.table| >= target)
  {
    var young := DropAged(q, q.table, now, c.maxAge);
    assert Distinct(q.table);
    DropAgedSpec(q, q.table, now, c.maxAge);
    EvictOldestSpec(q, young, |young| - target, now);
    var kept := EvictOldest(q, young, |young| - target, now);
    assert Prune(c, q, target, now) == q.(table := kept);
    hide Inv, Aged, Evictable, DropAged, EvictOldest, Distinct;
    if |young| <= target {
      NothingEvicted(q, young, |young| - target, now);
    }
  }

  lemma NothingEvicted(q: Queue, table: seq<OpId>, n: int, now: int)
    requires n <= 0
    ensures EvictOldest(q, table, n, now) == table
  {
  }

  // ---------------------------------------------------------------- success

  /** A return that means success for `id`: it held the writer, nobody had asked it to stop, and the result is no failure. */
  predicate Succeeds(q: Queue, e: Event, id: OpId, outcome: Outcome) {
    && e.Return? && e.ok && e.outcome == outcome && q.running == Some(id)
    && id in q.records && q.records[id].phase != Some("timing_out") && q.records[id].phase != Some("cancelling")
  }

  /** No other step makes a record succeed. */
  lemma SuccessStep(c: Config, q: Queue, e: Event, id: OpId)
    requires Inv(c, q) && Enabled(q, e) && id in q.records && q.records[id].state != Succeeded
    ensures var q' := Step(c, q, e);
            id in q'.records && q'.records[id].state == Succeeded ==> Succeeds(q, e, id, q'.records[id].outcome)
  {
    if e.Return? {
      ReturnMeaning(c, q, e.ok, e.outcome, e.at);
    } else if e.Raise? || e.CloseFinish? {
      EndsWithoutSuccess(c, q, e, id);
    } else {
      NoSuccess(c, q, e, id);
    }
    hide Inv, Step;
  }

  lemma EndsWithoutSuccess(c: Config, q: Queue, e: Event, id: OpId)
    requires Inv(c, q) && Enabled(q, e) && id in q.records && q.records[id].state != Succeeded && (e.Raise? || e.CloseFinish?)
    ensures id in Step(c, q, e).records ==> Step(c, q, e).records[id].state != Succeeded
  {
    hide Inv, Step;
    match e {
      case Raise(timeout, message, at) => RaiseMeaning(c, q, timeout, message, at);
      case CloseFinish(x, claimed, at) => CloseFinishMeaning(c, q, x, claimed, at);
    }
  }

  lemma NewRecord(c: Config, q: Queue, e: Event, id: OpId)
    requires Inv(c, q) && Enabled(q, e) && id !in q.records && id in Step(c, q, e).records
    ensures Step(c, q, e).records[id].state == Queued
  {
    if e.Submit? {
      SubmitMeaning(c, q, e.longRunning, e.key, e.at);
      hide Inv, Step, SubmitStep, SameKey;
    } else {
      OnlySubmitAdds(c, q, e);
      assert false;
    }
  }

  lemma OnlySubmitAdds(c: Config, q: Queue, e: Event)
    requires Inv(c, q) && Enabled(q, e) && !e.Submit?
    ensures Step(c, q, e).records.Keys == q.records.Keys
  {
    RunningRecord(c, q);
    if e.StartNext? {
      StartMeaning(c, q, e.at);
    } else if e.Cancel? {
      CancelMeaning(c, q, e.id, e.at);
    } else if e.Close? {
      CloseMeaning(c, q, e.at);
    } else if e.Mark? {
      MarkMeaning(c, q, e.call);
    } else if e.Clear? {
      ClearMeaning(c, q, e.call);
    } else {
      NothingAdded(c, q, e);
    }
    hide Inv, Step;
  }

  lemma NothingAdded(c: Config, q: Queue, e: Event)
    requires Enabled(q, e) && !e.Submit? && !e.StartNext? && !e.Cancel? && !e.Close? && !e.Mark? && !e.Clear?
    requires forall id :: id in q.executed ==> id in q.records
    ensures Step(c, q, e).records.Keys == q.records.Keys
  {
    if e.Raise? || e.Return? || e.CloseFinish? { EndingAddsNothing(c, q, e); } else { SideStepAddsNothing(c, q, e); }
    hide Step;
  }

  lemma EndingAddsNothing(c: Config, q: Queue, e: Event)
    requires Enabled(q, e) && (e.Raise? || e.Return? || e.CloseFinish?)
    ensures Step(c, q, e).records.Keys == q.records.Keys
  {
    hide FinishRecord, ReturnedState, RaisedState;
  }

  lemma SideStepAddsNothing(c: Config, q: Queue, e: Event)
    requires Enabled(q, e) && !e.Submit? && !e.StartNext? && !e.Cancel? && !e.Close? && !e.Mark? && !e.Clear?
    requires !e.Raise? && !e.Return? && !e.CloseFinish? && forall id :: id in q.executed ==> id in q.records
    ensures Step(c, q, e).records.Keys == q.records.Keys
  {
    hide HeartbeatRecord, Finish, SubmitStep, StartStep, CancelAll, MarkStep, ClearStep, RaisedState, ReturnedState;
  }

  lemma {:induction false} RunPrefix(c: Config, q: Queue, es: seq<Event>, k: nat)
    requires Run(c, q, es) && k <= |es|
    ensures Run(c, q, es[..k])
    ensures k > 0 ==> es[..k][1..] == es[1..][..k - 1] && After(c, q, es[..k]) == After(c, Step(c, q, es[0]), es[1..][..k - 1])
    decreases |es|
  {
    hide Step, Enabled;
    if k > 0 {
      RunPrefix(c, Step(c, q, es[0]), es[1..], k - 1);
      assert es[..k][0] == es[0] && es[..k][1..] == es[1..][..k - 1];
    }
  }

  /** Every success has its cause in the run: a record that has succeeded was returned once, without failure and without
      having been asked to stop, while it held the writer, and what was returned then is its outcome. */
  lemma {:induction false} SuccessHasCause(c: Config, q: Queue, es: seq<Event>, id: OpId) returns (k: nat)
    requires Inv(c, q) && Run(c, q, es) && (id in q.records ==> q.records[id].state != Succeeded)
    requires id in After(c, q, es).records && After(c, q, es).records[id].state == Succeeded
    ensures k < |es| && Run(c, q, es[..k])
    ensures Succeeds(After(c, q, es[..k]), es[k], id, After(c, q, es).records[id].outcome)
    decreases |es|
  {
    hide Inv, Step, Enabled, Succeeds, Advances;
    var q1 := Step(c, q, es[0]);
    StepKeeps(c, q, es[0]);
    if id in q.records { SuccessStep(c, q, es[0], id); } else if id in q1.records { NewRecord(c, q, es[0], id); }
    if id in q1.records && q1.records[id].state == Succeeded {
      k := 0;
      Frozen(c, q1, es[1..], id);
      assert es[..0] == [];
    } else {
      var j := SuccessHasCause(c, q1, es[1..], id);
      k := j + 1;
      RunPrefix(c, q, es, k);
      assert es[k] == es[1..][j];
    }
  }

  lemma Frozen(c: Config, q: Queue, es: seq<Event>, id: OpId)
    requires Inv(c, q) && Run(c, q, es) && id in q.records && q.records[id].state == Succeeded
    ensures id in After(c, q, es).records && After(c, q, es).records[id].outcome == q.records[id].outcome
  {
    RunAdvances(c, q, es);
    hide Inv;
  }

  lemma NoSuccess(c: Config, q: Queue, e: Event, id: OpId)
    requires Inv(c, q) && Enabled(q, e) && id in q.records && q.records[id].state != Succeeded
    requires !e.Return? && !e.Raise? && !e.CloseFinish?
    ensures id in Step(c, q, e).records ==> Step(c, q, e).records[id].state != Succeeded
  {
    hide Inv, Step;
    match e {
      case Submit(longRunning, key, at) => SubmitSucceedsNobody(c, q, longRunning, key, at, id);
      case StartNext(at) =>
        StartMeaning(c, q, at);
        if id in q.queued && id != q.queued[0] { var i :| 0 <= i < |q.queued[1..]| && q.queued[1..][i] == id; }
      case Cancel(x, at) => CancelMeaning(c, q, x, at);
      case Close(at) => CloseMeaning(c, q, at);
      case Heartbeat(x, progress, report, at) => HeartbeatMeaning(c, q, x, progress, report, at);
      case Mark(call) => MarkMeaning(c, q, call);
      case Clear(call) => ClearMeaning(c, q, call);
      case _ => QuietStep(c, q, e, id);
    }
  }

  lemma SubmitSucceedsNobody(c: Config, q: Queue, longRunning: bool, key: Option<string>, now: int, id: OpId)
    requires Inv(c, q) && id in q.records && q.records[id].state != Succeeded
    ensures var q' := Step(c, q, Submit(longRunning, key, now)); id in q'.records ==> q'.records[id].state != Succeeded
  {
    SubmitMeaning(c, q, longRunning, key, now);
    KnownIds(c, q);
    hide Inv, Step, SubmitStep, SameKey;
    var (q', made) := SubmitStep(c, q, longRunning, key, now);
    var rivals := SameKey(q, key);
    if made.Some? && id in q.queued && id !in rivals {
      StillWaiting(q, q', made.value, longRunning, key, now, rivals, id);
    }
    hide Admitted, Increasing;
  }

  lemma StillWaiting(q: Queue, q': Queue, made: OpId, longRunning: bool, key: Option<string>, now: int, rivals: set<OpId>, id: OpId)
    requires Admitted(q, q', made, longRunning, key, now, rivals) && id in q.records && id in q.queued && id !in rivals
    ensures id in q'.records && q'.records[id].state == q.records[id].state
  {
    assert id in q'.queued;
    var i :| 0 <= i < |q'.queued| && q'.queued[i] == id;
    assert i < |q'.queued| - 1;
  }

  /** The other steps leave every state alone. */
  lemma QuietStep(c: Config, q: Queue, e: Event, id: OpId)
    requires Enabled(q, e) && id in q.records
    requires || e.WaitBegin? || e.WaitEnd? || e.Release? || e.Begin? || e.FinishCancel? || e.HandBack? || e.LegacyMark?
             || e.WatchForce?
    ensures id in Step(c, q, e).records && Step(c, q, e).records[id].state == q.records[id].state
  {
  }
}
