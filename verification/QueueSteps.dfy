/** The single-writer operation queue (operations.py) as a transition system: one step per block that
    runs under the condition lock, plus the unlocked calls into the cancellation callbacks. Threads
    are free to interleave in any way. Class `OperationQueue` in QueueMonitor.dfy performs these steps. */
module QueueSteps {
  import opened Wrappers

  type OpId = nat
  type Claim = nat
  type CallId = nat

  datatype State = Queued | Running | Publishing | Succeeded | Failed | Cancelled | TimedOut

  predicate Terminal(s: State) { s in {Succeeded, Failed, Cancelled, TimedOut} }

  /** Phases that record a terminal intent. */
  const INTENT := {Some("cancelling"), Some("timing_out")}

  datatype Outcome = Outcome(result: Option<string>, error: Option<string>, details: Option<string>)

  const NO_OUTCOME := Outcome(None, None, None)

  datatype Record = Record(longRunning: bool, state: State, queuePosition: Option<nat>, progress: Option<int>,
                           phase: Option<string>, outcome: Outcome, replaceKey: Option<string>,
                           startedAt: Option<int>, finishedAt: Option<int>, lastHeartbeat: int,
                           waiters: nat, tooLate: bool, claim: Option<Claim>)

  /** What a thread inside `_request_cancel` has done so far. */
  datatype Call =
    | Answered(target: OpId, phase: string, answer: Answer)          // begin_cancel has returned
    | Installed(target: OpId, claim: Claim)                          // intent recorded, finish_cancel pending
    | Returned(target: OpId, claim: Claim, finished: bool)           // finish_cancel has returned
    | Cleared(target: OpId, claim: Claim)                            // it failed; the claim is dropped, not yet released
    | Done(claimed: bool)

  datatype Answer = TooLate | NotActive | Granted(claim: Claim)

  /** `records` holds every record ever made, `table` the addressable ones in insertion order. The
      last four fields are the calls made to the collaborators: `_execute`, `begin_cancel`,
      `finish_cancel` and `release_cancel_claim`. */
  datatype Queue = Queue(records: map<OpId, Record>, table: seq<OpId>, queued: seq<OpId>, running: Option<OpId>,
                         returned: bool, stop: bool, nextId: OpId, calls: map<CallId, Call>,
                         executed: seq<OpId>, granted: set<Claim>, finished: set<Claim>, released: set<Claim>)

  datatype Config = Config(maxQueued: nat, maxTerminal: int, maxAge: int, softTimeout: int, hardTimeout: int,
                           longSoftTimeout: int, longHardTimeout: int)

  predicate ValidConfig(c: Config) {
    c.maxQueued >= 1 && c.hardTimeout >= c.softTimeout && c.longHardTimeout >= c.longSoftTimeout
  }

  const EMPTY := Queue(map[], [], [], None, false, false, 0, map[], [], {}, {}, {})

  // ---------------------------------------------------------------- building blocks

  function Put(q: Queue, id: OpId, r: Record): Queue { q.(records := q.records[id := r]) }

  /** `_finish` on a record: the only way into a terminal state; a terminal record is left alone. */
  function FinishRecord(r: Record, state: State, outcome: Outcome, now: int): Record {
    if Terminal(r.state) then r
    else r.(claim := None, state := state, queuePosition := None, outcome := outcome, finishedAt := Some(now))
  }

  /** The claim `_finish` hands back, if any. */
  function ClaimOf(r: Record): set<Claim> {
    if !Terminal(r.state) && r.claim.Some? then {r.claim.value} else {}
  }

  function Finish(q: Queue, id: OpId, state: State, outcome: Outcome, now: int): Queue
    requires id in q.records
  {
    Put(q, id, FinishRecord(q.records[id], state, outcome, now)).(released := q.released + ClaimOf(q.records[id]))
  }

  function Without(s: seq<OpId>, hit: set<OpId>): seq<OpId> {
    if s == [] then [] else if s[0] in hit then Without(s[1..], hit) else [s[0]] + Without(s[1..], hit)
  }

  /** Take the operations `hit` out of the queue and finish them as cancelled. */
  function CancelAll(q: Queue, hit: set<OpId>, error: Option<string>, now: int): Queue {
    q.(records := map id | id in q.records ::
                    if id in hit then FinishRecord(q.records[id], Cancelled, Outcome(None, error, None), now) else q.records[id],
       queued := Without(q.queued, hit),
       released := q.released + (set id, c | id in hit && id in q.records && c in ClaimOf(q.records[id]) :: c))
  }

  function IndexOf(s: seq<OpId>, x: OpId): nat {
    if s == [] || s[0] == x then 0 else 1 + IndexOf(s[1..], x)
  }

  /** `_update_positions`. */
  function UpdatePositions(q: Queue): Queue {
    q.(records := map id | id in q.records ::
                    if id in q.queued then q.records[id].(queuePosition := Some(IndexOf(q.queued, id) + 1)) else q.records[id])
  }

  // ---------------------------------------------------------------- pruning

  predicate Evictable(q: Queue, id: OpId) {
    id in q.records && Terminal(q.records[id].state) && q.records[id].waiters == 0
  }

  function FinishTime(q: Queue, id: OpId, now: int): int {
    if id in q.records && q.records[id].finishedAt.Some? then q.records[id].finishedAt.value else now
  }

  predicate Aged(q: Queue, id: OpId, now: int, maxAge: int) {
    Evictable(q, id) && q.records[id].finishedAt.Some? && now - q.records[id].finishedAt.value >= maxAge
  }

  /** The addressable records that have not aged out. */
  function DropAged(q: Queue, table: seq<OpId>, now: int, maxAge: int): seq<OpId> {
    if table == [] then []
    else if Aged(q, table[0], now, maxAge) then DropAged(q, table[1..], now, maxAge)
    else [table[0]] + DropAged(q, table[1..], now, maxAge)
  }

  /** The evictable record that finished first; the earlier entry on a tie. */
  function Oldest(q: Queue, table: seq<OpId>, now: int): Option<OpId> {
    if table == [] then None
    else
      var rest := Oldest(q, table[1..], now);
      if !Evictable(q, table[0]) then rest
      else if rest.Some? && FinishTime(q, rest.value, now) < FinishTime(q, table[0], now) then rest
      else Some(table[0])
  }

  /** The table after evicting up to `n` records, oldest first. */
  function EvictOldest(q: Queue, table: seq<OpId>, n: int, now: int): seq<OpId>
    decreases n
  {
    var victim := Oldest(q, table, now);
    if n <= 0 || victim.None? then table else EvictOldest(q, Without(table, {victim.value}), n - 1, now)
  }

  /** `_prune_terminals`. */
  function Prune(c: Config, q: Queue, target: int, now: int): Queue {
    var young := DropAged(q, q.table, now, c.maxAge);
    q.(table := EvictOldest(q, young, |young| - target, now))
  }

  // ---------------------------------------------------------------- the steps

  datatype Event =
    | Submit(longRunning: bool, key: Option<string>, at: int)
    | WaitBegin(id: OpId)
    | WaitEnd(id: OpId)
    | Cancel(id: OpId, at: int)
    | Close(at: int)
    | CloseFinish(id: OpId, claimed: bool, at: int)
    | StartNext(at: int)
    | Heartbeat(id: OpId, progress: Option<int>, report: Option<string>, at: int)
    | Raise(timeout: bool, message: string, at: int)
    | Return(ok: bool, outcome: Outcome, at: int)
    | Release
    | Begin(call: CallId, id: OpId, phase: string, answer: Answer)
    | Mark(call: CallId)
    | FinishCancel(call: CallId, finished: bool)
    | Clear(call: CallId)
    | HandBack(call: CallId)
    | LegacyMark(id: OpId, phase: string)
    | WatchForce(id: OpId, observed: int)

  /** Where each thread may take its next step. Calls into unknown or finished operations are enabled
      and change nothing. `Begin` is the adversary: any thread may ask to cancel any record at any
      time, and may get any answer, as long as a granted claim is new. */
  predicate Enabled(q: Queue, e: Event) {
    match e
    case StartNext(_) => q.running.None? && q.queued != [] && !q.stop
    case Raise(_, _, _) => q.running.Some? && !q.returned
    case Return(_, _, _) => q.running.Some? && !q.returned
    case Release => q.running.Some? && q.returned
    case Heartbeat(id, _, _, _) => id in q.executed
    case CloseFinish(id, _, _) => q.stop && id in q.executed
    case WaitEnd(id) => id in q.records && q.records[id].waiters > 0
    case Begin(call, id, phase, answer) =>
      call !in q.calls && id in q.records && Some(phase) in INTENT && (answer.Granted? ==> answer.claim !in q.granted)
    case Mark(call) => call in q.calls && q.calls[call].Answered?
    case FinishCancel(call, _) => call in q.calls && q.calls[call].Installed?
    case Clear(call) => call in q.calls && q.calls[call].Returned?
    case HandBack(call) => call in q.calls && q.calls[call].Cleared?
    case LegacyMark(id, phase) => id in q.records && Some(phase) in INTENT
    case _ => true
  }

  function HardTimeout(c: Config, r: Record): int { if r.longRunning then c.longHardTimeout else c.hardTimeout }

  function Rivals(q: Queue, key: Option<string>): set<OpId> {
    set id | id in q.queued && id in q.records && key.Some? && q.records[id].replaceKey == key
  }

  /** Cancel what waits under the same replace key. */
  function Supersede(q: Queue, key: Option<string>, now: int): Queue {
    CancelAll(q, Rivals(q, key), Some("superseded by replacement"), now)
  }

  /** Append a new record. */
  function Enqueue(q: Queue, longRunning: bool, key: Option<string>, now: int): Queue {
    var id := q.nextId;
    var r := Record(longRunning, Queued, None, None, None, NO_OUTCOME, key, None, None, now, 0, false, None);
    UpdatePositions(Put(q, id, r).(table := q.table + [id], queued := q.queued + [id], nextId := id + 1))
  }

  /** The locked block of `submit`: the new state, and the new operation unless the call raises. A full
      queue raises after pruning and superseding. */
  function SubmitStep(c: Config, q: Queue, longRunning: bool, key: Option<string>, now: int): (Queue, Option<OpId>) {
    if q.stop then (q, None)
    else
      var q2 := Supersede(Prune(c, q, c.maxTerminal - 1, now), key, now);
      if |q2.queued| >= c.maxQueued then (q2, None)
      else (Enqueue(q2, longRunning, key, now), Some(q2.nextId))
  }

  /** The block of `_run` that pops the next operation; `_execute` follows. */
  function StartStep(q: Queue, now: int): Queue
    requires q.queued != []
  {
    var id := q.queued[0];
    if id !in q.records then q
    else
      var r := q.records[id].(state := Running, queuePosition := None, startedAt := Some(now), lastHeartbeat := now);
      UpdatePositions(Put(q, id, r).(queued := q.queued[1..], running := Some(id), executed := q.executed + [id]))
  }

  function HeartbeatRecord(r: Record, progress: Option<int>, phase: Option<string>, now: int): Record {
    if Terminal(r.state) then r
    else
      var phase' := if r.phase in INTENT then r.phase else phase;
      r.(lastHeartbeat := now, progress := progress, phase := phase',
         state := if phase == Some("publishing") && phase' !in INTENT then Publishing else r.state)
  }

  function RaisedState(r: Record, timeout: bool): State {
    if r.phase == Some("timing_out") || timeout then TimedOut
    else if r.phase == Some("cancelling") then Cancelled
    else Failed
  }

  function ReturnedState(r: Record, ok: bool): State {
    if !ok then Failed
    else if r.phase == Some("timing_out") then TimedOut
    else if r.phase == Some("cancelling") then Cancelled
    else Succeeded
  }

  /** The locked block of `_request_cancel` after the answer of `begin_cancel`. */
  function MarkStep(q: Queue, call: CallId): Queue
    requires call in q.calls && q.calls[call].Answered?
  {
    var Answered(id, phase, answer) := q.calls[call];
    if id !in q.records then q
    else
      var r := q.records[id];
      match answer
      case TooLate => Put(q, id, r.(tooLate := true)).(calls := q.calls[call := Done(false)])
      case NotActive => q.(calls := q.calls[call := Done(false)])
      case Granted(claim) =>
        if Terminal(r.state) || q.running != Some(id)
        then q.(released := q.released + {claim}, calls := q.calls[call := Done(false)])
        else Put(q, id, r.(claim := Some(claim), phase := Some(phase))).(calls := q.calls[call := Installed(id, claim)])
  }

  /** The locked block after `finish_cancel`. */
  function ClearStep(q: Queue, call: CallId): Queue
    requires call in q.calls && q.calls[call].Returned?
  {
    var Returned(id, claim, done) := q.calls[call];
    if id !in q.records then q
    else
      Put(q, id, q.records[id].(claim := None))
        .(calls := q.calls[call := if done then Done(true) else Cleared(id, claim)])
  }

  /** The release of a claim that was not finished, outside the lock. */
  function HandBackStep(q: Queue, call: CallId): Queue
    requires call in q.calls && q.calls[call].Cleared?
  {
    q.(released := q.released + {q.calls[call].claim}, calls := q.calls[call := Done(false)])
  }

  function IntentStep(q: Queue, id: OpId, phase: string): Queue
    requires id in q.records
  {
    if Terminal(q.records[id].state) || q.running != Some(id) then q
    else Put(q, id, q.records[id].(phase := Some(phase)))
  }

  function Step(c: Config, q: Queue, e: Event): Queue
    requires Enabled(q, e)
  {
    match e
    case Submit(longRunning, key, at) => SubmitStep(c, q, longRunning, key, at).0
    case WaitBegin(id) =>
      if id !in q.table || id !in q.records then q
      else Put(q, id, q.records[id].(waiters := q.records[id].waiters + 1))
    case WaitEnd(id) => Put(q, id, q.records[id].(waiters := q.records[id].waiters - 1))
    case Cancel(id, at) =>
      if id in q.table && id in q.records && q.records[id].state == Queued then CancelAll(q, {id}, None, at) else q
    case Close(at) => CancelAll(q.(stop := true), (set id | id in q.queued), Some("engine shutting down"), at)
    case CloseFinish(id, claimed, at) =>
      if id !in q.records then q
      else if claimed then Finish(q, id, Cancelled, Outcome(None, Some("engine shutting down"), None), at)
      else Finish(q, id, Failed, Outcome(None, Some("engine shutdown hard deadline reached"), None), at)
    case StartNext(at) => StartStep(q, at)
    case Heartbeat(id, progress, report, at) =>
      if id !in q.records then q else Put(q, id, HeartbeatRecord(q.records[id], progress, report, at))
    case Raise(timeout, message, at) =>
      var id := q.running.value;
      if id !in q.records then q
      else
        var state := RaisedState(q.records[id], timeout);
        var error := if state == Cancelled then "operation cancelled" else message;
        Finish(q, id, state, Outcome(None, Some(error), None), at).(returned := true)
    case Return(ok, outcome, at) =>
      var id := q.running.value;
      if id !in q.records then q
      else Finish(q, id, ReturnedState(q.records[id], ok), outcome, at).(returned := true)
    case Release => q.(running := None, returned := false)
    case Begin(call, id, phase, answer) =>
      q.(calls := q.calls[call := Answered(id, phase, answer)],
         granted := if answer.Granted? then q.granted + {answer.claim} else q.granted)
    case Mark(call) => MarkStep(q, call)
    case FinishCancel(call, done) =>
      q.(calls := q.calls[call := Returned(q.calls[call].target, q.calls[call].claim, done)],
         finished := if done then q.finished + {q.calls[call].claim} else q.finished)
    case Clear(call) => ClearStep(q, call)
    case HandBack(call) => HandBackStep(q, call)
    case LegacyMark(id, phase) => IntentStep(q, id, phase)
    case WatchForce(id, observed) =>
      if id in q.records && q.records[id].startedAt.Some?
         && observed - q.records[id].startedAt.value >= HardTimeout(c, q.records[id])
      then IntentStep(q, id, "timing_out") else q
  }

  // ---------------------------------------------------------------- the invariant

  predicate Increasing(s: seq<OpId>) { forall i, j :: 0 <= i < j < |s| ==> s[i] < s[j] }

  predicate Distinct(s: seq<OpId>) { forall i, j :: 0 <= i < j < |s| ==> s[i] != s[j] }

  /** What holds of each record, by its state. */
  ghost predicate RecordInv(q: Queue, id: OpId)
    requires id in q.records
  {
    var r := q.records[id];
    && (r.state == Queued <==> id in q.queued)
    && (r.state == Queued ==> r.phase.None? && r.claim.None? && r.startedAt.None?)
    && (r.state in {Running, Publishing} ==> q.running == Some(id) && r.startedAt.Some?)
    && (id in q.executed ==> r.state != Queued)
    && (r.state in {Running, Publishing} ==> id in q.executed)
    && (!Terminal(r.state) ==> id in q.table && r.finishedAt.None?)
    && (Terminal(r.state) ==> r.claim.None? && r.finishedAt.Some?)
    && (r.state == Succeeded ==> r.phase !in INTENT)
    && (r.claim.Some? ==> r.claim.value in q.granted)
  }

  /** Submission order, bounded length, one entry per replace key, and positions that never run ahead. */
  ghost predicate QueueInv(c: Config, q: Queue)
    requires forall id :: id in q.queued ==> id in q.records
  {
    && Increasing(q.queued) && |q.queued| <= c.maxQueued
    && (forall i, j :: 0 <= i < j < |q.queued| ==>
          q.records[q.queued[i]].replaceKey.None? || q.records[q.queued[i]].replaceKey != q.records[q.queued[j]].replaceKey)
    && (forall i :: 0 <= i < |q.queued| ==>
          q.records[q.queued[i]].queuePosition.Some? && q.records[q.queued[i]].queuePosition.value >= i + 1)
    && (forall i, j :: 0 <= i < j < |q.queued| ==>
          q.records[q.queued[i]].queuePosition.value < q.records[q.queued[j]].queuePosition.value)
    && (q.stop ==> q.queued == [])
  }

  ghost predicate WriterInv(q: Queue) {
    && Increasing(q.executed)
    && (forall x, y :: x in q.executed && y in q.queued ==> x < y)
    && (forall x :: x in q.executed ==> x in q.records)
    && (q.running.Some? ==> q.running.value in q.executed)
    && (q.returned ==> q.running.Some? && q.running.value in q.records && Terminal(q.records[q.running.value].state))
  }

  /** A granted claim was finished, was handed back, or is still in the hands of the thread that got it. */
  ghost predicate ClaimSettled(q: Queue, claim: Claim) {
    claim in q.finished || claim in q.released || exists call :: call in q.calls && Holds(q.calls[call], claim)
  }

  predicate Holds(call: Call, claim: Claim) {
    match call
    case Answered(_, _, answer) => answer == Granted(claim)
    case Installed(_, held) => held == claim
    case Returned(_, held, _) => held == claim
    case Cleared(_, held) => held == claim
    case Done(_) => false
  }

  ghost predicate CallsInv(q: Queue) {
    && (forall call :: call in q.calls ==>
          match q.calls[call]
          case Answered(id, phase, _) => id in q.records && Some(phase) in INTENT
          case Installed(id, claim) => id in q.records && claim in q.granted
          case Cleared(id, claim) => id in q.records && claim in q.granted
          case Returned(id, claim, done) => id in q.records && claim in q.granted && (done ==> claim in q.finished)
          case Done(_) => true)
    && (forall call, claim :: call in q.calls && Holds(q.calls[call], claim) ==> claim in q.granted)
    && (forall claim :: claim in q.granted ==> ClaimSettled(q, claim))
  }

  ghost predicate Inv(c: Config, q: Queue) {
    && (forall id: OpId :: id in q.records <==> id < q.nextId)
    && (forall id :: id in q.queued ==> id in q.records)
    && Distinct(q.table) && (forall id :: id in q.table ==> id in q.records)
    && (forall id :: id in q.records ==> RecordInv(q, id))
    && QueueInv(c, q) && WriterInv(q) && CallsInv(q)
  }
}
