/** Safety of the operation queue over every interleaving of its atomic steps. */
module QueueSafety {
  import opened Wrappers
  import opened QueueSteps
  import Sets

  // ---------------------------------------------------------------- sequences

  lemma {:induction false} WithoutSpec(s: seq<OpId>, hit: set<OpId>)
    ensures forall x :: x in Without(s, hit) <==> x in s && x !in hit
    ensures |Without(s, hit)| <= |s|
    ensures Distinct(s) ==> Distinct(Without(s, hit))
    ensures Increasing(s) ==> Increasing(Without(s, hit))
  {
    if s != [] {
      var rest := Without(s[1..], hit);
      WithoutSpec(s[1..], hit);
      if s[0] !in hit {
        var kept := [s[0]] + rest;
        assert Distinct(s) ==> Distinct(kept) by {
          if Distinct(s) {
            forall i, j | 0 <= i < j < |kept|
              ensures kept[i] != kept[j]
            {
              assert kept[j] == rest[j - 1] && rest[j - 1] in s[1..];
            }
          }
        }
        assert Increasing(s) ==> Increasing(kept) by {
          if Increasing(s) {
            forall i, j | 0 <= i < j < |kept|
              ensures kept[i] < kept[j]
            {
              assert kept[j] == rest[j - 1] && rest[j - 1] in s[1..];
            }
          }
        }
      }
    }
  }

  lemma {:induction false} WithoutAll(s: seq<OpId>, hit: set<OpId>)
    requires forall x :: x in s ==> x in hit
    ensures Without(s, hit) == []
  {
    if s != [] { WithoutAll(s[1..], hit); }
  }

  /** Filtering only moves elements forward. */
  lemma {:induction false} WithoutShift(s: seq<OpId>, hit: set<OpId>, i: nat) returns (j: nat)
    requires i < |Without(s, hit)|
    ensures i <= j < |s| && s[j] == Without(s, hit)[i]
    decreases |s|
  {
    if s[0] in hit {
      j := WithoutShift(s[1..], hit, i);
      j := j + 1;
    } else if i == 0 {
      j := 0;
    } else {
      assert Without(s, hit)[i] == Without(s[1..], hit)[i - 1];
      j := WithoutShift(s[1..], hit, i - 1);
      j := j + 1;
    }
  }

  lemma {:induction false} IndexOfSpec(s: seq<OpId>, i: nat)
    requires i < |s| && Distinct(s)
    ensures IndexOf(s, s[i]) == i
  {
    if i > 0 {
      assert s[0] != s[i];
      IndexOfSpec(s[1..], i - 1);
    }
  }

  // ---------------------------------------------------------------- preservation, by shape of step

  /** Rewriting one record that is not waiting, with everything else in place. */
  lemma PutKeeps(c: Config, q: Queue, id: OpId, r: Record)
    requires Inv(c, q) && id in q.records
    requires q.records[id].state != Queued && (Terminal(q.records[id].state) ==> Terminal(r.state))
    requires RecordInv(Put(q, id, r), id)
    ensures Inv(c, Put(q, id, r))
  {
    var q' := Put(q, id, r);
    forall x | x in q'.records
      ensures RecordInv(q', x)
    {
      if x != id { assert RecordInv(q, x); }
    }
    assert id !in q.queued by { assert RecordInv(q, id); }
    assert WriterInv(q');
    CallsKept(q, q');
    hide RecordInv, WriterInv, CallsInv;
    QueueSame(c, q, q');
  }

  /** The claim ledger only depends on the calls and on the claims granted, finished and released. */
  lemma CallsKept(q: Queue, q': Queue)
    requires CallsInv(q) && q'.calls == q.calls && q'.granted == q.granted
    requires q.finished <= q'.finished && q.released <= q'.released
    requires forall id :: id in q.records ==> id in q'.records
    ensures CallsInv(q')
  {
  }

  lemma ReleasedKeeps(c: Config, q: Queue, released: set<Claim>)
    requires Inv(c, q) && q.released <= released
    ensures Inv(c, q.(released := released))
  {
    var q' := q.(released := released);
    forall x | x in q'.records
      ensures RecordInv(q', x)
    {
      assert RecordInv(q, x);
    }
    assert QueueInv(c, q');
    CallsKept(q, q');
  }

  lemma FinishKeeps(c: Config, q: Queue, id: OpId, state: State, outcome: Outcome, now: int)
    requires Inv(c, q) && id in q.records && q.records[id].state != Queued && Terminal(state)
    requires state == Succeeded ==> q.records[id].phase !in INTENT
    ensures Inv(c, Finish(q, id, state, outcome, now))
  {
    var r := FinishRecord(q.records[id], state, outcome, now);
    assert RecordInv(Put(q, id, r), id) by { assert RecordInv(q, id); }
    hide Inv, RecordInv;
    PutKeeps(c, q, id, r);
    ReleasedKeeps(c, Put(q, id, r), q.released + ClaimOf(q.records[id]));
  }

  lemma CancelAllRecord(c: Config, q: Queue, hit: set<OpId>, error: Option<string>, now: int, id: OpId)
    requires Inv(c, q) && (forall x :: x in hit ==> x in q.queued) && id in q.records
    ensures RecordInv(CancelAll(q, hit, error, now), id)
  {
    WithoutSpec(q.queued, hit);
    assert RecordInv(q, id);
  }

  lemma CancelAllQueue(c: Config, q: Queue, hit: set<OpId>, error: Option<string>, now: int)
    requires Inv(c, q) && forall x :: x in hit ==> x in q.queued
    ensures var q' := CancelAll(q, hit, error, now);
            (forall id :: id in q'.queued ==> id in q'.records) && QueueInv(c, q')
  {
    hide RecordInv, CallsInv, WriterInv;
    var q' := CancelAll(q, hit, error, now);
    WithoutSpec(q.queued, hit);
    forall i | 0 <= i < |q'.queued|
      ensures q'.records[q'.queued[i]].queuePosition.Some? && q'.records[q'.queued[i]].queuePosition.value >= i + 1
    {
      var j := WithoutShift(q.queued, hit, i);
      assert q'.queued[i] in q'.queued;
    }
    forall i, j | 0 <= i < j < |q'.queued|
      ensures q'.records[q'.queued[i]].replaceKey.None? || q'.records[q'.queued[i]].replaceKey != q'.records[q'.queued[j]].replaceKey
      ensures q'.records[q'.queued[i]].queuePosition.value < q'.records[q'.queued[j]].queuePosition.value
    {
      CancelAllPair(c, q, hit, error, now, i, j);
    }
  }

  lemma CancelAllPair(c: Config, q: Queue, hit: set<OpId>, error: Option<string>, now: int, i: nat, j: nat)
    requires (forall id :: id in q.queued ==> id in q.records) && QueueInv(c, q)
    requires i < j < |Without(q.queued, hit)|
    ensures var q' := CancelAll(q, hit, error, now);
            var x, y := q'.queued[i], q'.queued[j];
            && x in q'.records && y in q'.records
            && (q'.records[x].replaceKey.None? || q'.records[x].replaceKey != q'.records[y].replaceKey)
            && q'.records[x].queuePosition.Some? && q'.records[y].queuePosition.Some?
            && q'.records[x].queuePosition.value < q'.records[y].queuePosition.value
  {
    var kept := Without(q.queued, hit);
    WithoutSpec(q.queued, hit);
    assert kept[i] in kept && kept[j] in kept && kept[i] < kept[j];
    var a := WithoutShift(q.queued, hit, i);
    var b := WithoutShift(q.queued, hit, j);
    assert q.queued[a] < q.queued[b];
    assert a < b;
  }

  /** Cancelling waiting operations and taking them out of the queue. */
  lemma CancelAllKeeps(c: Config, q: Queue, hit: set<OpId>, error: Option<string>, now: int)
    requires Inv(c, q) && forall id :: id in hit ==> id in q.queued
    ensures Inv(c, CancelAll(q, hit, error, now))
  {
    hide RecordInv, QueueInv, CallsInv;
    var q' := CancelAll(q, hit, error, now);
    WithoutSpec(q.queued, hit);
    CancelAllQueue(c, q, hit, error, now);
    forall id | id in q'.records
      ensures RecordInv(q', id)
    {
      CancelAllRecord(c, q, hit, error, now, id);
    }
    CallsKept(q, q');
    assert WriterInv(q');
  }

  // ---------------------------------------------------------------- queue positions

  lemma Renumbered(q: Queue, i: nat)
    requires Increasing(q.queued) && (forall id :: id in q.queued ==> id in q.records) && i < |q.queued|
    ensures UpdatePositions(q).records[q.queued[i]] == q.records[q.queued[i]].(queuePosition := Some(i + 1))
  {
    IndexOfSpec(q.queued, i);
  }

  /** Everything but the positions themselves. */
  ghost predicate QueueInvUnnumbered(c: Config, q: Queue)
    requires forall id :: id in q.queued ==> id in q.records
  {
    && Increasing(q.queued) && |q.queued| <= c.maxQueued
    && (forall i, j :: 0 <= i < j < |q.queued| ==>
          q.records[q.queued[i]].replaceKey.None? || q.records[q.queued[i]].replaceKey != q.records[q.queued[j]].replaceKey)
    && (q.stop ==> q.queued == [])
  }

  lemma UpdatePositionsQueue(c: Config, q: Queue)
    requires (forall id :: id in q.queued ==> id in q.records) && QueueInvUnnumbered(c, q)
    ensures var q' := UpdatePositions(q); (forall id :: id in q'.queued ==> id in q'.records) && QueueInv(c, q')
  {
    var q' := UpdatePositions(q);
    forall i | 0 <= i < |q.queued|
      ensures q'.records[q'.queued[i]] == q.records[q.queued[i]].(queuePosition := Some(i + 1))
    {
      Renumbered(q, i);
    }
  }

  lemma UpdatePositionsKeeps(c: Config, q: Queue)
    requires (forall id: OpId :: id in q.records <==> id < q.nextId)
    requires (forall id :: id in q.queued ==> id in q.records) && QueueInvUnnumbered(c, q)
    requires Distinct(q.table) && (forall id :: id in q.table ==> id in q.records)
    requires (forall id :: id in q.records ==> RecordInv(q, id)) && WriterInv(q) && CallsInv(q)
    ensures Inv(c, UpdatePositions(q))
  {
    var q' := UpdatePositions(q);
    UpdatePositionsQueue(c, q);
    forall id | id in q'.records
      ensures RecordInv(q', id)
    {
      assert RecordInv(q, id);
    }
    CallsKept(q, q');
    assert WriterInv(q');
  }

  // ---------------------------------------------------------------- pruning

  lemma {:induction false} DropAgedSpec(q: Queue, table: seq<OpId>, now: int, maxAge: int)
    ensures forall x :: x in DropAged(q, table, now, maxAge) <==> x in table && !Aged(q, x, now, maxAge)
    ensures |DropAged(q, table, now, maxAge)| <= |table|
    ensures Distinct(table) ==> Distinct(DropAged(q, table, now, maxAge))
  {
    if table != [] {
      var rest := DropAged(q, table[1..], now, maxAge);
      DropAgedSpec(q, table[1..], now, maxAge);
      if Distinct(table) && !Aged(q, table[0], now, maxAge) {
        var kept := [table[0]] + rest;
        forall i, j | 0 <= i < j < |kept|
          ensures kept[i] != kept[j]
        {
          assert kept[j] == rest[j - 1] && rest[j - 1] in table[1..];
        }
      }
    }
  }

  lemma {:induction false} OldestSpec(q: Queue, table: seq<OpId>, now: int)
    ensures Oldest(q, table, now).None? <==> forall x :: x in table ==> !Evictable(q, x)
    ensures var o := Oldest(q, table, now);
            o.Some? ==>
              && o.value in table && Evictable(q, o.value)
              && forall x :: x in table && Evictable(q, x) ==> FinishTime(q, o.value, now) <= FinishTime(q, x, now)
  {
    if table != [] {
      OldestSpec(q, table[1..], now);
      assert forall x :: x in table <==> x == table[0] || x in table[1..];
    }
  }

  lemma {:induction false} WithoutOne(s: seq<OpId>, x: OpId)
    requires Distinct(s) && x in s
    ensures |Without(s, {x})| == |s| - 1
  {
    if s[0] == x {
      assert forall y :: y in s[1..] ==> y != x;
      WithoutNothing(s[1..], x);
    } else {
      assert forall i, j :: 0 <= i < j < |s[1..]| ==> s[1..][i] != s[1..][j];
      WithoutOne(s[1..], x);
    }
  }

  lemma {:induction false} WithoutNothing(s: seq<OpId>, x: OpId)
    requires x !in s
    ensures Without(s, {x}) == s
  {
    if s != [] { WithoutNothing(s[1..], x); }
  }

  /** Eviction takes evictable records only, oldest first, and stops at the wanted size or when none is left. */
  lemma {:induction false} EvictOldestSpec(q: Queue, table: seq<OpId>, n: int, now: int)
    requires Distinct(table)
    ensures var kept := EvictOldest(q, table, n, now);
            && Distinct(kept) && (forall x :: x in kept ==> x in table)
            && (forall x :: x in table && x !in kept ==> Evictable(q, x))
            && (forall x, y :: x in table && x !in kept && y in kept && Evictable(q, y) ==>
                  FinishTime(q, x, now) <= FinishTime(q, y, now))
            && |table| - |kept| <= (if n > 0 then n else 0)
            && ((forall x :: x in kept ==> !Evictable(q, x)) || |kept| == |table| - (if n > 0 then n else 0))
    decreases n
  {
    OldestSpec(q, table, now);
    var victim := Oldest(q, table, now);
    if n > 0 && victim.Some? {
      var rest := Without(table, {victim.value});
      WithoutSpec(table, {victim.value});
      WithoutOne(table, victim.value);
      EvictOldestSpec(q, rest, n - 1, now);
    }
  }

  lemma PruneKeeps(c: Config, q: Queue, target: int, now: int)
    requires Inv(c, q)
    ensures Inv(c, Prune(c, q, target, now))
  {
    var q' := Prune(c, q, target, now);
    var young := DropAged(q, q.table, now, c.maxAge);
    DropAgedSpec(q, q.table, now, c.maxAge);
    EvictOldestSpec(q, young, |young| - target, now);
    forall id | id in q'.records
      ensures RecordInv(q', id)
    {
      assert RecordInv(q, id);
    }
    assert QueueInv(c, q');
    CallsKept(q, q');
  }

  // ---------------------------------------------------------------- every step keeps the invariant

  lemma SubmitKeeps(c: Config, q: Queue, longRunning: bool, key: Option<string>, now: int)
    requires Inv(c, q)
    ensures Inv(c, SubmitStep(c, q, longRunning, key, now).0)
  {
    hide Inv, Supersede, Enqueue, DropAged, EvictOldest;
    if !q.stop {
      var q1 := Prune(c, q, c.maxTerminal - 1, now);
      PruneKeeps(c, q, c.maxTerminal - 1, now);
      SupersedeKeeps(c, q1, key, now);
      var q2 := Supersede(q1, key, now);
      if |q2.queued| < c.maxQueued {
        EnqueueKeeps(c, q2, longRunning, key, now);
      }
    }
  }

  lemma SupersedeKeeps(c: Config, q: Queue, key: Option<string>, now: int)
    requires Inv(c, q)
    ensures var q' := Supersede(q, key, now);
            && Inv(c, q') && q'.stop == q.stop
            && forall x :: x in q'.queued ==> x in q'.records && (key.None? || q'.records[x].replaceKey != key)
  {
    hide RecordInv, QueueInv, WriterInv, CallsInv;
    var hit := set id | id in q.queued && id in q.records && key.Some? && q.records[id].replaceKey == key;
    CancelAllKeeps(c, q, hit, Some("superseded by replacement"), now);
    WithoutSpec(q.queued, hit);
  }

  lemma EnqueueKeeps(c: Config, q: Queue, longRunning: bool, key: Option<string>, now: int)
    requires Inv(c, q) && !q.stop && |q.queued| < c.maxQueued
    requires forall x :: x in q.queued ==> x in q.records && (key.None? || q.records[x].replaceKey != key)
    ensures Inv(c, Enqueue(q, longRunning, key, now))
  {
    hide RecordInv, QueueInv, CallsInv, WriterInv, QueueInvUnnumbered, UpdatePositions, Distinct;
    var id := q.nextId;
    var r := Record(longRunning, Queued, None, None, None, NO_OUTCOME, key, None, None, now, 0, false, None);
    var q' := Put(q, id, r).(table := q.table + [id], queued := q.queued + [id], nextId := id + 1);
    EnqueuedRecords(c, q, q', id, r);
    EnqueuedCalls(c, q, q');
    EnqueuedQueue(c, q, q', id, r);
    EnqueuedWriter(c, q, q', id);
    assert forall x: OpId :: x in q'.records <==> x < q'.nextId;
    UpdatePositionsKeeps(c, q');
  }

  lemma EnqueuedCalls(c: Config, q: Queue, q': Queue)
    requires Inv(c, q) && q' == q.(records := q'.records, table := q'.table, queued := q'.queued, nextId := q'.nextId)
    requires forall x :: x in q.records ==> x in q'.records
    ensures CallsInv(q')
  {
  }

  lemma EnqueuedRecords(c: Config, q: Queue, q': Queue, id: OpId, r: Record)
    requires Inv(c, q) && id == q.nextId
    requires r.state == Queued && r.phase.None? && r.claim.None? && r.finishedAt.None? && r.startedAt.None?
    requires q' == q.(records := q.records[id := r], table := q.table + [id], queued := q.queued + [id], nextId := id + 1)
    ensures forall x :: x in q'.records ==> RecordInv(q', x)
  {
  }

  lemma EnqueuedWriter(c: Config, q: Queue, q': Queue, id: OpId)
    requires Inv(c, q) && id == q.nextId
    requires q'.queued == q.queued + [id] && q'.table == q.table + [id] && q'.executed == q.executed
    requires q'.running == q.running && q'.returned == q.returned && q'.records.Keys == q.records.Keys + {id}
    requires forall x :: x in q.records ==> q'.records[x] == q.records[x]
    ensures WriterInv(q') && Distinct(q'.table) && forall x :: x in q'.table ==> x in q'.records
  {
    hide RecordInv, QueueInv, CallsInv;
    assert id !in q.records;
    forall i, j | 0 <= i < j < |q'.table|
      ensures q'.table[i] != q'.table[j]
    {
      assert q.table[i] in q.table;
    }
  }

  lemma EnqueuedQueue(c: Config, q: Queue, q': Queue, id: OpId, r: Record)
    requires Inv(c, q) && !q.stop && |q.queued| < c.maxQueued && id == q.nextId
    requires forall x :: x in q.queued ==> r.replaceKey.None? || q.records[x].replaceKey != r.replaceKey
    requires q'.records == q.records[id := r] && q'.queued == q.queued + [id] && q'.stop == q.stop
    ensures (forall x :: x in q'.queued ==> x in q'.records) && QueueInvUnnumbered(c, q')
  {
    hide RecordInv, CallsInv, WriterInv;
    assert forall x :: x in q.queued ==> x < id;
    forall i, j | 0 <= i < j < |q'.queued|
      ensures q'.queued[i] < q'.queued[j]
      ensures q'.records[q'.queued[i]].replaceKey.None? || q'.records[q'.queued[i]].replaceKey != q'.records[q'.queued[j]].replaceKey
    {
      assert q.queued[i] in q.queued;
      if j < |q.queued| { assert q.queued[j] in q.queued; }
    }
  }

  lemma StartKeeps(c: Config, q: Queue, now: int)
    requires Inv(c, q) && q.running.None? && q.queued != [] && !q.stop
    ensures Inv(c, StartStep(q, now))
  {
    var id := q.queued[0];
    var r := q.records[id].(state := Running, queuePosition := None, startedAt := Some(now), lastHeartbeat := now);
    var q' := Put(q, id, r).(queued := q.queued[1..], running := Some(id), executed := q.executed + [id]);
    StartedRecords(c, q, q', id, r);
    CallsKept(q, q');
    StartedQueue(c, q, q', id, r);
    StartedWriter(c, q, q', id);
    hide RecordInv, QueueInv, CallsInv, WriterInv;
    UpdatePositionsKeeps(c, q');
  }

  lemma StartedRecords(c: Config, q: Queue, q': Queue, id: OpId, r: Record)
    requires Inv(c, q) && q.queued != [] && id == q.queued[0] && id in q.records && q.running.None?
    requires r == q.records[id].(state := Running, queuePosition := None, startedAt := r.startedAt, lastHeartbeat := r.lastHeartbeat)
    requires r.startedAt.Some?
    requires q' == Put(q, id, r).(queued := q.queued[1..], running := Some(id), executed := q.executed + [id])
    ensures forall x :: x in q'.records ==> RecordInv(q', x)
  {
    assert forall x :: x in q.queued <==> x == id || x in q'.queued;
    assert id !in q'.queued;
    hide QueueInv, WriterInv, CallsInv;
    forall x | x in q'.records
      ensures RecordInv(q', x)
    {
      assert RecordInv(q, x);
    }
  }

  lemma StartedWriter(c: Config, q: Queue, q': Queue, id: OpId)
    requires Inv(c, q) && q.queued != [] && id == q.queued[0] && q.running.None?
    requires q'.queued == q.queued[1..] && q'.executed == q.executed + [id] && q'.running == Some(id)
    requires q'.returned == q.returned && forall x :: x in q.records ==> x in q'.records
    ensures WriterInv(q')
  {
    hide RecordInv, CallsInv;
    assert id in q.queued;
    forall i, j | 0 <= i < j < |q'.executed|
      ensures q'.executed[i] < q'.executed[j]
    {
      if j == |q.executed| { assert q.executed[i] in q.executed; }
    }
    forall x, y | x in q'.executed && y in q'.queued
      ensures x < y
    {
      assert y in q.queued;
      assert x in q.executed || x == id;
    }
  }

  lemma StartedQueue(c: Config, q: Queue, q': Queue, id: OpId, r: Record)
    requires Inv(c, q) && q.queued != [] && id == q.queued[0]
    requires q'.records == q.records[id := r] && q'.queued == q.queued[1..] && q'.stop == q.stop
    ensures (forall x :: x in q'.queued ==> x in q'.records) && QueueInvUnnumbered(c, q')
  {
  }

  lemma CloseKeeps(c: Config, q: Queue, now: int)
    requires Inv(c, q)
    ensures Inv(c, Step(c, q, Close(now)))
  {
    var hit := set id | id in q.queued;
    var q1 := CancelAll(q, hit, Some("engine shutting down"), now);
    CancelAllKeeps(c, q, hit, Some("engine shutting down"), now);
    WithoutSpec(q.queued, hit);
    var q' := Step(c, q, Close(now));
    assert q'.records == q1.records && q' == q1.(stop := true);
    WithoutAll(q.queued, hit);
    forall id | id in q'.records
      ensures RecordInv(q', id)
    {
      assert RecordInv(q1, id);
    }
    CallsKept(q1, q');
  }

  /** A change to the calls alone, or to the claims, keeps every part that speaks of records and queue. */
  lemma LedgerKeeps(c: Config, q: Queue, q': Queue)
    requires Inv(c, q) && CallsInv(q') && q.granted <= q'.granted
    requires q' == q.(calls := q'.calls, granted := q'.granted, finished := q'.finished, released := q'.released)
    ensures Inv(c, q')
  {
    hide CallsInv;
    forall id | id in q'.records
      ensures RecordInv(q', id)
    {
      assert RecordInv(q, id);
    }
    assert QueueInv(c, q');
    assert WriterInv(q');
  }

  lemma BeginKeeps(c: Config, q: Queue, e: Event)
    requires Inv(c, q) && Enabled(q, e) && e.Begin?
    ensures Inv(c, Step(c, q, e))
  {
    var q' := Step(c, q, e);
    forall claim | claim in q'.granted
      ensures ClaimSettled(q', claim)
    {
      if claim in q.granted {
        assert ClaimSettled(q, claim);
        if call :| call in q.calls && Holds(q.calls[call], claim) {
          assert call in q'.calls && Holds(q'.calls[call], claim);
        }
      } else {
        assert e.call in q'.calls && Holds(q'.calls[e.call], claim);
      }
    }
    LedgerKeeps(c, q, q');
  }

  lemma FinishCancelKeeps(c: Config, q: Queue, e: Event)
    requires Inv(c, q) && Enabled(q, e) && e.FinishCancel?
    ensures Inv(c, Step(c, q, e))
  {
    var q' := Step(c, q, e);
    assert Holds(q'.calls[e.call], q.calls[e.call].claim);
    forall claim | claim in q'.granted
      ensures ClaimSettled(q', claim)
    {
      assert ClaimSettled(q, claim);
      if call :| call in q.calls && Holds(q.calls[call], claim) {
        assert call in q'.calls && Holds(q'.calls[call], claim);
      }
    }
    LedgerKeeps(c, q, q');
  }

  /** A claim leaves the hands of its thread only when it has been finished or is handed back. */
  lemma DoneKeeps(c: Config, q: Queue, call: CallId, claimed: bool)
    requires Inv(c, q) && call in q.calls
    requires forall claim :: Holds(q.calls[call], claim) ==> claim in q.finished || claim in q.released
    ensures Inv(c, q.(calls := q.calls[call := Done(claimed)]))
  {
    var q' := q.(calls := q.calls[call := Done(claimed)]);
    forall id | id in q'.records
      ensures RecordInv(q', id)
    {
      assert RecordInv(q, id);
    }
    assert QueueInv(c, q');
    forall claim | claim in q'.granted
      ensures ClaimSettled(q', claim)
    {
      assert ClaimSettled(q, claim);
      if other :| other in q.calls && Holds(q.calls[other], claim) && other != call {
        assert other in q'.calls && Holds(q'.calls[other], claim);
      }
    }
  }

  lemma MarkKeeps(c: Config, q: Queue, call: CallId)
    requires Inv(c, q) && call in q.calls && q.calls[call].Answered?
    ensures Inv(c, MarkStep(q, call))
  {
    var Answered(id, phase, answer) := q.calls[call];
    var r := q.records[id];
    assert RecordInv(q, id);
    match answer {
      case TooLate =>
        DoneKeeps(c, q, call, false);
        SideFieldKeeps(c, q.(calls := q.calls[call := Done(false)]), id, r.(tooLate := true));
      case NotActive =>
        DoneKeeps(c, q, call, false);
      case Granted(claim) =>
        if Terminal(r.state) || q.running != Some(id) {
          ReleasedKeeps(c, q, q.released + {claim});
          DoneKeeps(c, q.(released := q.released + {claim}), call, false);
        } else {
          assert claim in q.granted by { assert Holds(q.calls[call], claim); }
          PutKeeps(c, q, id, r.(claim := Some(claim), phase := Some(phase)));
          HoldKeeps(c, Put(q, id, r.(claim := Some(claim), phase := Some(phase))), call, Installed(id, claim));
        }
    }
  }

  /** The thread goes on, still holding its claim. */
  lemma HoldKeeps(c: Config, q: Queue, call: CallId, next: Call)
    requires Inv(c, q) && call in q.calls && (next.Installed? || next.Cleared?) && next.target in q.records
    requires Holds(q.calls[call], next.claim) && (q.calls[call].Answered? || q.calls[call].Returned?)
    ensures Inv(c, q.(calls := q.calls[call := next]))
  {
    var q' := q.(calls := q.calls[call := next]);
    forall x | x in q'.records
      ensures RecordInv(q', x)
    {
      assert RecordInv(q, x);
    }
    assert QueueInv(c, q');
    forall other | other in q'.granted
      ensures ClaimSettled(q', other)
    {
      assert ClaimSettled(q, other);
      if holder :| holder in q.calls && Holds(q.calls[holder], other) {
        assert holder in q'.calls && Holds(q'.calls[holder], other);
      }
    }
  }

  /** Waiters, the too-late mark and dropping a claim touch nothing else the invariant speaks of, whatever the state. */
  lemma SideFieldKeeps(c: Config, q: Queue, id: OpId, r: Record)
    requires Inv(c, q) && id in q.records
    requires r == q.records[id].(waiters := r.waiters, tooLate := r.tooLate, claim := r.claim)
    requires r.claim == q.records[id].claim || r.claim == None
    ensures Inv(c, Put(q, id, r))
  {
    var q' := Put(q, id, r);
    forall x | x in q'.records
      ensures RecordInv(q', x)
    {
      assert RecordInv(q, x);
    }
    CallsKept(q, q');
    hide RecordInv, CallsInv;
    QueueSame(c, q, q');
    assert WriterInv(q');
  }

  lemma QueueSame(c: Config, q: Queue, q': Queue)
    requires (forall id :: id in q.queued ==> id in q.records && id in q'.records) && QueueInv(c, q)
    requires q'.queued == q.queued && q'.stop == q.stop
    requires forall id :: id in q.queued ==> q'.records[id].replaceKey == q.records[id].replaceKey
    requires forall id :: id in q.queued ==> q'.records[id].queuePosition == q.records[id].queuePosition
    ensures QueueInv(c, q')
  {
  }

  lemma ClearKeeps(c: Config, q: Queue, call: CallId)
    requires Inv(c, q) && call in q.calls && q.calls[call].Returned?
    ensures Inv(c, ClearStep(q, call))
  {
    var Returned(id, claim, done) := q.calls[call];
    var r := q.records[id];
    assert RecordInv(q, id);
    var q1 := Put(q, id, r.(claim := None));
    SideFieldKeeps(c, q, id, r.(claim := None));
    if done { DoneKeeps(c, q1, call, true); } else { HoldKeeps(c, q1, call, Cleared(id, claim)); }
  }

  lemma HandBackKeeps(c: Config, q: Queue, call: CallId)
    requires Inv(c, q) && call in q.calls && q.calls[call].Cleared?
    ensures Inv(c, HandBackStep(q, call))
  {
    var released := q.released + {q.calls[call].claim};
    ReleasedKeeps(c, q, released);
    DoneKeeps(c, q.(released := released), call, false);
  }

  lemma IntentKeeps(c: Config, q: Queue, id: OpId, phase: string)
    requires Inv(c, q) && id in q.records && Some(phase) in INTENT
    ensures Inv(c, IntentStep(q, id, phase))
  {
    assert RecordInv(q, id);
    if !Terminal(q.records[id].state) && q.running == Some(id) {
      PutKeeps(c, q, id, q.records[id].(phase := Some(phase)));
    }
  }

  lemma WriterKeeps(c: Config, q: Queue, e: Event)
    requires Inv(c, q) && Enabled(q, e) && (e.Raise? || e.Return? || e.Release?)
    ensures Inv(c, Step(c, q, e))
  {
    var id := q.running.value;
    assert RecordInv(q, id);
    hide Inv, RecordInv, Step;
    match e {
      case Raise(timeout, message, at) => RaiseKeeps(c, q, id, timeout, message, at);
      case Return(ok, outcome, at) => ReturnKeeps(c, q, id, ok, outcome, at);
      case Release => LetGoStep(c, q);
    }
  }

  lemma RaiseKeeps(c: Config, q: Queue, id: OpId, timeout: bool, message: string, now: int)
    requires Inv(c, q) && q.running == Some(id) && !q.returned && id in q.records && q.records[id].state != Queued
    ensures Inv(c, Step(c, q, Raise(timeout, message, now)))
  {
    var state := RaisedState(q.records[id], timeout);
    var error := if state == Cancelled then "operation cancelled" else message;
    hide Inv, Finish;
    EndKeeps(c, q, id, state, Outcome(None, Some(error), None), now);
  }

  lemma ReturnKeeps(c: Config, q: Queue, id: OpId, ok: bool, outcome: Outcome, now: int)
    requires Inv(c, q) && q.running == Some(id) && !q.returned && id in q.records && q.records[id].state != Queued
    ensures Inv(c, Step(c, q, Return(ok, outcome, now)))
  {
    hide Inv, Finish;
    EndKeeps(c, q, id, ReturnedState(q.records[id], ok), outcome, now);
  }

  lemma LetGoStep(c: Config, q: Queue)
    requires Inv(c, q) && q.running.Some? && q.returned
    ensures Inv(c, Step(c, q, Release))
  {
    LetGoKeeps(c, q);
    hide Inv;
  }

  lemma EndKeeps(c: Config, q: Queue, id: OpId, state: State, outcome: Outcome, now: int)
    requires Inv(c, q) && q.running == Some(id) && id in q.records && q.records[id].state != Queued && Terminal(state)
    requires state == Succeeded ==> q.records[id].phase !in INTENT
    ensures Inv(c, Finish(q, id, state, outcome, now).(returned := true))
  {
    FinishKeeps(c, q, id, state, outcome, now);
    hide Inv, RecordInv;
    ReturnedKeeps(c, Finish(q, id, state, outcome, now));
  }

  lemma LetGoKeeps(c: Config, q: Queue)
    requires Inv(c, q) && q.running.Some? && q.returned
    ensures Inv(c, q.(running := None, returned := false))
  {
    var q' := q.(running := None, returned := false);
    forall x | x in q'.records
      ensures RecordInv(q', x)
    {
      assert RecordInv(q, x);
    }
    CallsKept(q, q');
    assert WriterInv(q');
    hide RecordInv, WriterInv, CallsInv;
    QueueSame(c, q, q');
  }

  lemma ReturnedKeeps(c: Config, q: Queue)
    requires Inv(c, q) && q.running.Some? && q.running.value in q.records && Terminal(q.records[q.running.value].state)
    ensures Inv(c, q.(returned := true))
  {
    var q' := q.(returned := true);
    forall x | x in q'.records
      ensures RecordInv(q', x)
    {
      assert RecordInv(q, x);
    }
    assert QueueInv(c, q');
    CallsKept(q, q');
  }

  lemma RecordKeeps(c: Config, q: Queue, e: Event)
    requires Inv(c, q) && Enabled(q, e) && (e.Cancel? || e.CloseFinish? || e.Heartbeat? || e.WaitBegin? || e.WaitEnd?)
    ensures Inv(c, Step(c, q, e))
  {
    hide QueueInv, CallsInv, CancelAll;
    match e {
      case WaitBegin(id) => if id in q.records { SideFieldKeeps(c, q, id, q.records[id].(waiters := q.records[id].waiters + 1)); }
      case WaitEnd(id) => SideFieldKeeps(c, q, id, q.records[id].(waiters := q.records[id].waiters - 1));
      case Cancel(id, at) =>
        if id in q.table && q.records[id].state == Queued {
          assert RecordInv(q, id);
          CancelAllKeeps(c, q, {id}, None, at);
        }
      case CloseFinish(id, claimed, at) =>
        assert RecordInv(q, id);
        if claimed {
          FinishKeeps(c, q, id, Cancelled, Outcome(None, Some("engine shutting down"), None), at);
        } else {
          FinishKeeps(c, q, id, Failed, Outcome(None, Some("engine shutdown hard deadline reached"), None), at);
        }
      case Heartbeat(id, progress, report, at) =>
        assert RecordInv(q, id);
        PutKeeps(c, q, id, HeartbeatRecord(q.records[id], progress, report, at));
    }
  }

  /** Every step of every thread keeps the invariant. */
  lemma StepKeeps(c: Config, q: Queue, e: Event)
    requires Inv(c, q) && Enabled(q, e)
    ensures Inv(c, Step(c, q, e))
  {
    hide Inv, SubmitStep, StartStep, MarkStep, ClearStep, HandBackStep, IntentStep, Finish, CancelAll, HeartbeatRecord;
    match e {
      case Submit(longRunning, key, at) => SubmitKeeps(c, q, longRunning, key, at);
      case Close(at) => CloseKeeps(c, q, at);
      case StartNext(at) => StartKeeps(c, q, at);
      case Begin(_, _, _, _) => BeginKeeps(c, q, e);
      case FinishCancel(_, _) => FinishCancelKeeps(c, q, e);
      case Mark(call) => MarkKeeps(c, q, call);
      case Clear(call) => ClearKeeps(c, q, call);
      case HandBack(call) => HandBackKeeps(c, q, call);
      case LegacyMark(id, phase) => IntentKeeps(c, q, id, phase);
      case WatchForce(id, observed) => if id in q.records { IntentKeeps(c, q, id, "timing_out"); }
      case Raise(_, _, _) => WriterKeeps(c, q, e);
      case Return(_, _, _) => WriterKeeps(c, q, e);
      case Release => WriterKeeps(c, q, e);
      case _ => RecordKeeps(c, q, e);
    }
  }

  // ---------------------------------------------------------------- what a step does to the past

  function Rank(s: State): nat {
    match s
    case Queued => 0
    case Running => 1
    case Publishing => 2
    case _ => 3
  }

  /** Forward only: states move along the lifecycle, a terminal record is frozen, an intent stays one. */
  predicate RecordAdvances(r: Record, r': Record) {
    && Rank(r.state) <= Rank(r'.state)
    && (Terminal(r.state) ==>
          r'.state == r.state && r'.outcome == r.outcome && r'.phase == r.phase && r'.finishedAt == r.finishedAt)
    && (r.phase in INTENT ==> r'.phase in INTENT)
    && r'.replaceKey == r.replaceKey && (r.startedAt.Some? ==> r'.startedAt == r.startedAt)
  }

  ghost predicate Advances(q: Queue, q': Queue) {
    && (forall id :: id in q.records ==> id in q'.records && RecordAdvances(q.records[id], q'.records[id]))
    && q.executed <= q'.executed
    && (q.stop ==> q'.stop && q'.executed == q.executed)
    && (forall id :: id in q.records && Terminal(q.records[id].state) && id !in q.executed ==> id !in q'.executed)
  }

  lemma CancelAllAdvances(q: Queue, hit: set<OpId>, error: Option<string>, now: int, id: OpId)
    requires id in q.records
    ensures var q' := CancelAll(q, hit, error, now); id in q'.records && RecordAdvances(q.records[id], q'.records[id])
  {
  }

  lemma EnqueueAdvances(q: Queue, longRunning: bool, key: Option<string>, now: int, id: OpId)
    requires id in q.records && id != q.nextId
    ensures var q' := Enqueue(q, longRunning, key, now); id in q'.records && RecordAdvances(q.records[id], q'.records[id])
  {
  }

  lemma SubmitAdvances(c: Config, q: Queue, longRunning: bool, key: Option<string>, now: int, id: OpId)
    requires Inv(c, q) && id in q.records
    ensures var q' := SubmitStep(c, q, longRunning, key, now).0;
            id in q'.records && RecordAdvances(q.records[id], q'.records[id])
  {
    hide CancelAll, Enqueue, DropAged, EvictOldest, RecordInv, QueueInv, WriterInv, CallsInv;
    if !q.stop {
      var q1 := Prune(c, q, c.maxTerminal - 1, now);
      var hit := set x | x in q1.queued && x in q1.records && key.Some? && q1.records[x].replaceKey == key;
      CancelAllAdvances(q1, hit, Some("superseded by replacement"), now, id);
      var q2 := Supersede(q1, key, now);
      assert q2.nextId == q.nextId by { CancelAllFrame(q1, hit, Some("superseded by replacement"), now); }
      EnqueueAdvances(q2, longRunning, key, now, id);
    }
  }

  lemma CancelAllFrame(q: Queue, hit: set<OpId>, error: Option<string>, now: int)
    ensures var q' := CancelAll(q, hit, error, now);
            q' == q.(records := q'.records, queued := q'.queued, released := q'.released)
  {
  }

  lemma StartAdvances(c: Config, q: Queue, now: int, id: OpId)
    requires Inv(c, q) && q.queued != [] && id in q.records
    ensures var q' := StartStep(q, now); id in q'.records && RecordAdvances(q.records[id], q'.records[id])
  {
    hide QueueInv, WriterInv, CallsInv;
    assert q.queued[0] in q.queued && RecordInv(q, q.queued[0]);
  }

  /** A step that rewrites at most the record `target`, in a forward way. */
  ghost predicate Rewrites(q: Queue, q': Queue, target: OpId) {
    target in q.records ==>
      && target in q'.records && q'.records == q.records[target := q'.records[target]]
      && RecordAdvances(q.records[target], q'.records[target])
  }

  lemma MarkRewrites(q: Queue, call: CallId)
    requires call in q.calls && q.calls[call].Answered? && Some(q.calls[call].phase) in INTENT
    ensures var q' := MarkStep(q, call);
            var target := q.calls[call].target;
            && (target !in q.records ==> q'.records == q.records) && Rewrites(q, q', target)
            && (target in q.records ==>
                  && q'.records[target].state == q.records[target].state
                  && (Terminal(q.records[target].state) ==> q'.records[target].phase == q.records[target].phase)
                  && (q.calls[call].answer.TooLate? ==> q'.records[target] == q.records[target].(tooLate := true)))
  {
    var target := q.calls[call].target;
    if target in q.records {
      assert q.records == q.records[target := q.records[target]];
    }
  }

  lemma ClearRewrites(q: Queue, call: CallId)
    requires call in q.calls && q.calls[call].Returned?
    ensures var q' := ClearStep(q, call);
            var target := q.calls[call].target;
            && (target !in q.records ==> q'.records == q.records) && Rewrites(q, q', target)
            && (target in q.records ==> q'.records[target] == q.records[target].(claim := None))
  {
  }

  lemma IntentRewrites(q: Queue, target: OpId, phase: string)
    requires target in q.records && Some(phase) in INTENT
    ensures var q' := IntentStep(q, target, phase);
            && Rewrites(q, q', target) && q'.records[target].state == q.records[target].state
            && (Terminal(q.records[target].state) ==> q'.records[target].phase == q.records[target].phase)
  {
  }

  lemma FinishRewrites(q: Queue, target: OpId, state: State, outcome: Outcome, now: int)
    requires target in q.records && Terminal(state)
    ensures Rewrites(q, Finish(q, target, state, outcome, now), target)
  {
  }

  lemma HeartbeatRewrites(q: Queue, target: OpId, progress: Option<int>, report: Option<string>, now: int)
    requires target in q.records && q.records[target].state != Queued
    ensures Rewrites(q, Put(q, target, HeartbeatRecord(q.records[target], progress, report, now)), target)
  {
  }

  lemma CallAdvances(c: Config, q: Queue, e: Event, id: OpId)
    requires Inv(c, q) && Enabled(q, e) && id in q.records
    requires e.Mark? || e.Clear? || e.LegacyMark? || e.WatchForce?
    ensures var q' := Step(c, q, e); id in q'.records && RecordAdvances(q.records[id], q'.records[id])
  {
    hide RecordInv, QueueInv, WriterInv, MarkStep, ClearStep, IntentStep;
    match e {
      case Mark(call) => MarkRewrites(q, call);
      case Clear(call) => ClearRewrites(q, call);
      case LegacyMark(target, phase) => IntentRewrites(q, target, phase);
      case WatchForce(target, _) => if target in q.records { IntentRewrites(q, target, "timing_out"); }
    }
  }

  lemma WriterAdvances(c: Config, q: Queue, e: Event, id: OpId)
    requires Inv(c, q) && Enabled(q, e) && id in q.records && (e.Raise? || e.Return?)
    ensures var q' := Step(c, q, e); id in q'.records && RecordAdvances(q.records[id], q'.records[id])
  {
    hide RecordInv, QueueInv, CallsInv, Finish;
    match e {
      case Raise(timeout, message, at) =>
        var r := q.records[q.running.value];
        var error := if RaisedState(r, timeout) == Cancelled then "operation cancelled" else message;
        FinishRewrites(q, q.running.value, RaisedState(r, timeout), Outcome(None, Some(error), None), at);
      case Return(ok, outcome, at) =>
        FinishRewrites(q, q.running.value, ReturnedState(q.records[q.running.value], ok), outcome, at);
    }
  }

  lemma TargetAdvances(c: Config, q: Queue, e: Event, id: OpId)
    requires Inv(c, q) && Enabled(q, e) && id in q.records && (e.CloseFinish? || e.Heartbeat?)
    ensures var q' := Step(c, q, e); id in q'.records && RecordAdvances(q.records[id], q'.records[id])
  {
    hide QueueInv, CallsInv, Finish, HeartbeatRecord;
    match e {
      case CloseFinish(target, claimed, at) =>
        FinishRewrites(q, target, Cancelled, Outcome(None, Some("engine shutting down"), None), at);
        FinishRewrites(q, target, Failed, Outcome(None, Some("engine shutdown hard deadline reached"), None), at);
      case Heartbeat(target, progress, report, at) =>
        assert RecordInv(q, target);
        HeartbeatRewrites(q, target, progress, report, at);
    }
  }

  lemma StepAdvancesAt(c: Config, q: Queue, e: Event, id: OpId)
    requires Inv(c, q) && Enabled(q, e) && id in q.records
    ensures var q' := Step(c, q, e); id in q'.records && RecordAdvances(q.records[id], q'.records[id])
  {
    hide Inv, SubmitStep, StartStep, CancelAll, MarkStep, ClearStep, IntentStep, Finish, HeartbeatRecord;
    match e {
      case Submit(longRunning, key, at) => SubmitAdvances(c, q, longRunning, key, at, id);
      case StartNext(at) => StartAdvances(c, q, at, id);
      case Cancel(x, at) => CancelAllAdvances(q, {x}, None, at, id);
      case Close(at) => CancelAllAdvances(q.(stop := true), (set x | x in q.queued), Some("engine shutting down"), at, id);
      case Mark(_) => CallAdvances(c, q, e, id);
      case Clear(_) => CallAdvances(c, q, e, id);
      case LegacyMark(_, _) => CallAdvances(c, q, e, id);
      case WatchForce(_, _) => CallAdvances(c, q, e, id);
      case Raise(_, _, _) => WriterAdvances(c, q, e, id);
      case Return(_, _, _) => WriterAdvances(c, q, e, id);
      case CloseFinish(_, _, _) => TargetAdvances(c, q, e, id);
      case Heartbeat(_, _, _, _) => TargetAdvances(c, q, e, id);
      case _ =>
    }
  }

  lemma StepExecutes(c: Config, q: Queue, e: Event)
    requires Inv(c, q) && Enabled(q, e)
    ensures var q' := Step(c, q, e);
            && q'.executed == (if e.StartNext? then q.executed + [q.queued[0]] else q.executed)
            && (q.stop ==> q'.stop)
  {
    hide Inv, DropAged, EvictOldest;
    assert e.StartNext? ==> q.queued[0] in q.records by { QueuedRecord(c, q); }
  }

  lemma QueuedRecord(c: Config, q: Queue)
    requires Inv(c, q)
    ensures forall id :: id in q.queued ==> id in q.records && q.records[id].state == Queued
  {
  }

  lemma StepAdvances(c: Config, q: Queue, e: Event)
    requires Inv(c, q) && Enabled(q, e)
    ensures Advances(q, Step(c, q, e))
  {
    var q' := Step(c, q, e);
    forall id | id in q.records
      ensures id in q'.records && RecordAdvances(q.records[id], q'.records[id])
    {
      StepAdvancesAt(c, q, e, id);
    }
    StepExecutes(c, q, e);
    QueuedRecord(c, q);
    hide Inv, Step;
  }

  // ---------------------------------------------------------------- runs

  ghost predicate Run(c: Config, q: Queue, es: seq<Event>)
    decreases |es|
  {
    es == [] || (Enabled(q, es[0]) && Run(c, Step(c, q, es[0]), es[1..]))
  }

  ghost function After(c: Config, q: Queue, es: seq<Event>): Queue
    requires Run(c, q, es)
    decreases |es|
  {
    if es == [] then q else After(c, Step(c, q, es[0]), es[1..])
  }

  lemma AdvancesTransitive(a: Queue, b: Queue, d: Queue)
    requires Advances(a, b) && Advances(b, d)
    ensures Advances(a, d)
  {
  }

  /** Over every interleaving, from any reachable state to any later one. */
  lemma {:induction false} RunAdvances(c: Config, q: Queue, es: seq<Event>)
    requires Inv(c, q) && Run(c, q, es)
    ensures Inv(c, After(c, q, es)) && Advances(q, After(c, q, es))
    decreases |es|
  {
    hide Inv, Step, Enabled, Advances;
    if es == [] {
      AdvancesReflexive(q);
    } else {
      StepKeeps(c, q, es[0]);
      StepAdvances(c, q, es[0]);
      RunAdvances(c, Step(c, q, es[0]), es[1..]);
      AdvancesTransitive(q, Step(c, q, es[0]), After(c, q, es));
    }
  }

  lemma AdvancesReflexive(q: Queue)
    ensures Advances(q, q)
  {
  }

  lemma EmptyInv(c: Config)
    ensures Inv(c, EMPTY)
  {
  }

  /** Single writer, from a fresh queue over every interleaving: whatever runs or publishes is the one
      record the writer holds, and it was handed to `_execute`; an operation waits exactly when it is
      in the queue, where it stands once; no operation is executed twice, executions follow submission
      order, and what was cancelled while waiting is never executed. */
  lemma SingleWriter(c: Config, es: seq<Event>, id: OpId)
    requires Run(c, EMPTY, es) && id in After(c, EMPTY, es).records
    ensures var q := After(c, EMPTY, es);
            && (q.records[id].state in {Running, Publishing} ==> q.running == Some(id) && id in q.executed)
            && (q.records[id].state == Queued <==> id in q.queued)
            && multiset(q.queued)[id] <= 1 && multiset(q.executed)[id] <= 1
            && Increasing(q.executed) && |q.queued| <= c.maxQueued
            && (q.stop ==> q.queued == [])
  {
    EmptyInv(c);
    RunAdvances(c, EMPTY, es);
    var q := After(c, EMPTY, es);
    assert RecordInv(q, id);
    IncreasingOnce(q.queued, id);
    IncreasingOnce(q.executed, id);
  }

  /** The queue over every interleaving: bounded, and no position understates how many are ahead, cancellations
      included; entries in submission order, one per replace key, with positions that grow along the queue. */
  lemma QueueDiscipline(c: Config, es: seq<Event>, i: nat, j: nat)
    requires Run(c, EMPTY, es) && i <= j < |After(c, EMPTY, es).queued|
    ensures var q := After(c, EMPTY, es);
            var x, y := q.queued[i], q.queued[j];
            && |q.queued| <= c.maxQueued
            && x in q.records && q.records[x].queuePosition.Some? && i + 1 <= q.records[x].queuePosition.value
            && y in q.records && q.records[y].queuePosition.Some?
            && (i < j ==>
                  && x < y && q.records[x].queuePosition.value < q.records[y].queuePosition.value
                  && (q.records[x].replaceKey.None? || q.records[x].replaceKey != q.records[y].replaceKey))
  {
    EmptyInv(c);
    RunAdvances(c, EMPTY, es);
    hide RecordInv, WriterInv, CallsInv, Step, Enabled;
    var q := After(c, EMPTY, es);
    assert q.queued[i] in q.queued && q.queued[j] in q.queued;
  }

  lemma {:induction false} IncreasingOnce(s: seq<OpId>, x: OpId)
    requires Increasing(s)
    ensures multiset(s)[x] <= 1
  {
    if s != [] {
      assert s == [s[0]] + s[1..];
      IncreasingOnce(s[1..], x);
      assert forall y :: y in s[1..] ==> s[0] < y;
    }
  }

  /** After `close`, and after a cancellation in the queue, nothing more is executed. */
  lemma NothingStartsAfter(c: Config, q: Queue, es: seq<Event>, id: OpId)
    requires Inv(c, q) && Run(c, q, es) && id in q.records
    ensures q.stop ==> After(c, q, es).executed == q.executed
    ensures Terminal(q.records[id].state) && id !in q.executed ==> id !in After(c, q, es).executed
    ensures id in After(c, q, es).records
    ensures Terminal(q.records[id].state) ==>
              var r' := After(c, q, es).records[id];
              r'.state == q.records[id].state && r'.outcome == q.records[id].outcome && r'.phase == q.records[id].phase
  {
    RunAdvances(c, q, es);
    assert RecordAdvances(q.records[id], After(c, q, es).records[id]);
  }

  /** Terminal intent wins: once a live record's phase is a cancellation or a timeout, no later
      heartbeat, publishing report or completion changes that, and it never succeeds. */
  lemma IntentWins(c: Config, q: Queue, es: seq<Event>, id: OpId)
    requires Inv(c, q) && Run(c, q, es) && id in q.records
    requires q.records[id].phase in INTENT
    ensures id in After(c, q, es).records
    ensures var r' := After(c, q, es).records[id]; r'.phase in INTENT && r'.state != Succeeded
  {
    RunAdvances(c, q, es);
    var q' := After(c, q, es);
    assert RecordAdvances(q.records[id], q'.records[id]);
    assert RecordInv(q', id);
  }

  /** The event is a block of a cancellation request for `target`. */
  predicate Concerns(q: Queue, e: Event, target: OpId)
    requires Enabled(q, e)
  {
    match e
    case Mark(call) => q.calls[call].target == target
    case Clear(call) => q.calls[call].target == target
    case LegacyMark(id, _) => id == target
    case WatchForce(id, _) => id == target
    case _ => false
  }

  /** A cancellation request marks its target only, and a too-late answer leaves phase and state alone. */
  lemma RequestsAreLocal(c: Config, q: Queue, e: Event, target: OpId, other: OpId)
    requires Inv(c, q) && Enabled(q, e) && other in q.records && target in q.records && Concerns(q, e, target)
    ensures var q' := Step(c, q, e);
            && (other != target ==> q'.records[other] == q.records[other])
            && q'.records[target].state == q.records[target].state
            && (e.Mark? && q.calls[e.call].answer.TooLate? ==>
                  q'.records[target] == q.records[target].(tooLate := true))
            && (Terminal(q.records[target].state) ==> q'.records[target].phase == q.records[target].phase)
  {
    hide RecordInv, QueueInv, WriterInv, MarkStep, ClearStep, IntentStep;
    match e {
      case Mark(call) => MarkRewrites(q, call);
      case Clear(call) => ClearRewrites(q, call);
      case LegacyMark(id, phase) => IntentRewrites(q, id, phase);
      case WatchForce(id, _) => IntentRewrites(q, id, "timing_out");
    }
  }

  /** Once every cancellation call has returned, each claim ever granted was finished or handed back. */
  lemma ClaimsSettled(c: Config, es: seq<Event>, claim: Claim)
    requires Run(c, EMPTY, es)
    requires var q := After(c, EMPTY, es); claim in q.granted && forall call :: call in q.calls ==> q.calls[call].Done?
    ensures var q := After(c, EMPTY, es); claim in q.finished || claim in q.released
  {
    EmptyInv(c);
    RunAdvances(c, EMPTY, es);
    assert ClaimSettled(After(c, EMPTY, es), claim);
  }

  // ---------------------------------------------------------------- retention

  /** Addressable finished records that somebody still waits on. */
  ghost function Awaited(q: Queue): set<OpId> {
    set id | id in q.table && id in q.records && Terminal(q.records[id].state) && q.records[id].waiters > 0
  }

  lemma {:induction false} DistinctSize(s: seq<OpId>, ids: set<OpId>)
    requires Distinct(s) && forall x :: x in s ==> x in ids
    ensures |s| <= |ids|
    decreases |s|
  {
    if s != [] {
      assert forall x :: x in s[1..] ==> x in ids - {s[0]};
      DistinctSize(s[1..], ids - {s[0]});
    }
  }

  ghost function Elements(s: seq<OpId>): set<OpId> { set x | x in s }

  lemma {:induction false} ElementsSize(s: seq<OpId>)
    ensures |Elements(s)| <= |s|
    decreases |s|
  {
    if s != [] {
      ElementsSize(s[1..]);
      assert Elements(s) == {s[0]} + Elements(s[1..]);
      UnionSize({s[0]}, Elements(s[1..]));
    }
  }

  /** Pruning never evicts a live record or one with waiters; among the rest, what it evicts for space
      finished no later than what it keeps. */
  lemma PruneRetains(c: Config, q: Queue, target: int, now: int, id: OpId)
    requires Inv(c, q) && id in q.table && id !in Prune(c, q, target, now).table
    ensures Terminal(q.records[id].state) && q.records[id].waiters == 0
    ensures Aged(q, id, now, c.maxAge)
         || forall kept :: kept in Prune(c, q, target, now).table && Evictable(q, kept) ==>
              q.records[id].finishedAt.value <= q.records[kept].finishedAt.value
  {
    EndedHaveTimes(c, q);
    assert Distinct(q.table);
    hide Inv, Prune;
    PrunedOut(c, q, target, now, id);
  }

  lemma PrunedOut(c: Config, q: Queue, target: int, now: int, id: OpId)
    requires Distinct(q.table) && id in q.table && id !in Prune(c, q, target, now).table
    requires forall id :: id in q.records && Terminal(q.records[id].state) ==> q.records[id].finishedAt.Some?
    ensures Evictable(q, id)
    ensures Aged(q, id, now, c.maxAge)
         || forall kept :: kept in Prune(c, q, target, now).table && Evictable(q, kept) ==>
              q.records[id].finishedAt.value <= q.records[kept].finishedAt.value
  {
    var young := DropAged(q, q.table, now, c.maxAge);
    var kept := EvictOldest(q, young, |young| - target, now);
    assert Prune(c, q, target, now).table == kept;
    DropAgedSpec(q, q.table, now, c.maxAge);
    hide DropAged, EvictOldest, Prune, Distinct;
    if id in young {
      EvictOldestSpec(q, young, |young| - target, now);
      hide Aged;
      forall other | other in kept && Evictable(q, other)
        ensures q.records[id].finishedAt.value <= q.records[other].finishedAt.value
      {
        assert FinishTime(q, id, now) <= FinishTime(q, other, now);
      }
    }
  }

  lemma EndedHaveTimes(c: Config, q: Queue)
    requires Inv(c, q)
    ensures forall id :: id in q.records && Terminal(q.records[id].state) ==> q.records[id].finishedAt.Some?
  {
    forall id | id in q.records && Terminal(q.records[id].state)
      ensures q.records[id].finishedAt.Some?
    {
      assert RecordInv(q, id);
    }
  }

  lemma UnionSize(a: set<OpId>, b: set<OpId>)
    ensures |a + b| <= |a| + |b|
  {
  }

  /** What pruning cannot evict is waiting in the queue, running, or awaited. */
  lemma Unevictable(c: Config, q: Queue, id: OpId)
    requires Inv(c, q) && id in q.table && !Evictable(q, id)
    ensures id in q.queued || q.running == Some(id) || id in Awaited(q)
  {
  }

  lemma UnevictableSize(c: Config, q: Queue)
    requires Inv(c, q) && forall x :: x in q.table ==> !Evictable(q, x)
    ensures |q.table| <= |q.queued| + 1 + |Awaited(q)|
  {
    var live := if q.running.Some? then {q.running.value} else {};
    forall x | x in q.table
      ensures x in Elements(q.queued) + live + Awaited(q)
    {
      Unevictable(c, q, x);
    }
    assert Distinct(q.table);
    hide Awaited, Inv;
    DistinctSize(q.table, Elements(q.queued) + live + Awaited(q));
    UnionSize(Elements(q.queued) + live, Awaited(q));
    UnionSize(Elements(q.queued), live);
    ElementsSize(q.queued);
  }

  lemma PrunedSize(c: Config, q: Queue, target: int, now: int)
    requires Inv(c, q)
    ensures var q' := Prune(c, q, target, now);
            |q'.table| <= target || |q'.table| <= |q.queued| + 1 + |Awaited(q')|
  {
    PruneKeeps(c, q, target, now);
    var q' := Prune(c, q, target, now);
    var young := DropAged(q, q.table, now, c.maxAge);
    DropAgedSpec(q, q.table, now, c.maxAge);
    EvictOldestSpec(q, young, |young| - target, now);
    hide RecordInv, QueueInv, WriterInv, CallsInv, EvictOldest, DropAged, Awaited;
    if forall x :: x in q'.table ==> !Evictable(q', x) {
      UnevictableSize(c, q');
    }
  }

  /** Retention bound: after every submission the table holds at most `max_terminal` records, or what
      it cannot evict: a full queue, the running one, the new one, and those with waiters. */
  lemma SubmitRetention(c: Config, q: Queue, longRunning: bool, key: Option<string>, now: int)
    requires Inv(c, q) && SubmitStep(c, q, longRunning, key, now).1.Some?
    ensures var q' := SubmitStep(c, q, longRunning, key, now).0;
            |q'.table| <= c.maxTerminal || |q'.table| <= c.maxQueued + 2 + |Awaited(q')|
  {
    hide RecordInv, WriterInv, CallsInv, DropAged, EvictOldest;
    var q1 := Prune(c, q, c.maxTerminal - 1, now);
    PruneKeeps(c, q, c.maxTerminal - 1, now);
    PrunedSize(c, q, c.maxTerminal - 1, now);
    var q2 := Supersede(q1, key, now);
    var q' := Enqueue(q2, longRunning, key, now);
    forall id | id in Awaited(q1)
      ensures id in Awaited(q')
    {
      AwaitedStays(c, q1, longRunning, key, now, id);
    }
    Sets.SubsetSize(Awaited(q1), Awaited(q'));
  }

  lemma AwaitedStays(c: Config, q: Queue, longRunning: bool, key: Option<string>, now: int, id: OpId)
    requires Inv(c, q) && id in Awaited(q)
    ensures id in Awaited(Enqueue(Supersede(q, key, now), longRunning, key, now))
  {
    hide QueueInv, WriterInv, CallsInv;
    assert RecordInv(q, id);
    var q2 := Supersede(q, key, now);
    assert q2.records[id] == q.records[id] && q2.table == q.table && q2.nextId == q.nextId;
    assert id in q2.queued ==> id in q.queued by {
      var hit := set x | x in q.queued && x in q.records && key.Some? && q.records[x].replaceKey == key;
      WithoutSpec(q.queued, hit);
    }
  }
}
