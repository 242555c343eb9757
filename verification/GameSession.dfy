/** A game session's lifecycle: a fixed transition table, with stop and dispose on top. */
module GameSession {
  import opened Wrappers

  datatype Status = CREATED | PREFLIGHT | READY | STARTING | ACTIVE | PAUSED | STOPPING | COMPLETED | FAILED | DISPOSED

  datatype Record = Record(
    status: Status, createdAt: int,
    preflightCompletedAt: Option<int>, startedAt: Option<int>, pausedAt: Option<int>, endedAt: Option<int>,
    stopReason: string)

  /** The record a call leaves and the statuses it went through to get there, or the error an
      invalid transition throws. */
  datatype Result = Snapshot(record: Record, path: seq<Status>) | InvalidTransition

  function Transitions(s: Status): set<Status> {
    match s
    case CREATED => {PREFLIGHT, FAILED, DISPOSED}
    case PREFLIGHT => {READY, FAILED, STOPPING}
    case READY => {STARTING, STOPPING, FAILED}
    case STARTING => {ACTIVE, FAILED, STOPPING}
    case ACTIVE => {PAUSED, STOPPING, COMPLETED, FAILED}
    case PAUSED => {ACTIVE, STOPPING, FAILED}
    case STOPPING => {COMPLETED, FAILED, DISPOSED}
    case COMPLETED => {DISPOSED}
    case FAILED => {DISPOSED}
    case DISPOSED => {}
  }

  predicate Terminal(s: Status) { s.COMPLETED? || s.FAILED? || s.DISPOSED? }

  function Created(now: int): Record { Record(CREATED, now, None, None, None, None, "") }

  function Moved(r: Record, next: Status, now: int, reason: string): Record {
    Record(next, r.createdAt,
           if next.READY? then Some(now) else r.preflightCompletedAt,
           if next.ACTIVE? && r.startedAt.None? then Some(now) else r.startedAt,
           if next.PAUSED? then Some(now) else r.pausedAt,
           if Terminal(next) && r.endedAt.None? then Some(now) else r.endedAt,
           if reason != "" then reason else r.stopReason)
  }

  function Transitioned(r: Record, next: Status, now: int, reason: string): Result {
    if r.status == next then Snapshot(r, [])
    else if next !in Transitions(r.status) then InvalidTransition
    else Snapshot(Moved(r, next, now, reason), [next])
  }

  /** One call after another; the first error ends both. */
  function Then(first: Result, next: Record -> Result): Result {
    if first.InvalidTransition? || next(first.record).InvalidTransition? then InvalidTransition
    else Snapshot(next(first.record).record, first.path + next(first.record).path)
  }

  function Stopped(r: Record, reason: string, now: int): Result {
    if Terminal(r.status) then Snapshot(r, [])
    else
      Then(if r.status.STOPPING? then Snapshot(r, []) else Transitioned(r, STOPPING, now, reason),
           (s: Record) => Transitioned(s, COMPLETED, now, reason))
  }

  function Disposed(r: Record, now: int): Result {
    if r.status.DISPOSED? then Snapshot(r, [])
    else
      Then(if r.status.COMPLETED? || r.status.FAILED? then Snapshot(r, []) else Stopped(r, "disposed", now),
           (s: Record) => Transitioned(s, DISPOSED, now, ""))
  }

  /** What a caller gets back: a copy of the record, or the error. */
  function Returned(result: Result): Option<Record> {
    if result.Snapshot? then Some(result.record) else None
  }

  class GameSession {
    var record: Record
    ghost var entered: seq<Status>   // every status entered since the start

    /** The state a call leaves: an error leaves it as it was. */
    twostate predicate After(result: Result)
      reads this
    {
      if result.Snapshot? then record == result.record && entered == old(entered) + result.path
      else record == old(record) && entered == old(entered)
    }

    constructor (now: int)
      ensures record == Created(now) && entered == []
    {
      record, entered := Created(now), [];
    }

    method Transition(next: Status, now: int, reason: string) returns (snapshot: Option<Record>)
      modifies this
      ensures After(Transitioned(old(record), next, now, reason))
      ensures snapshot == Returned(Transitioned(old(record), next, now, reason))
    {
      if record.status == next { return Some(record); }
      if next !in Transitions(record.status) { return None; }
      record, entered := record.(status := next), entered + [next];
      if next == READY { record := record.(preflightCompletedAt := Some(now)); }
      if next == ACTIVE && record.startedAt.None? { record := record.(startedAt := Some(now)); }
      if next == PAUSED { record := record.(pausedAt := Some(now)); }
      if Terminal(next) && record.endedAt.None? { record := record.(endedAt := Some(now)); }
      if reason != "" { record := record.(stopReason := reason); }
      snapshot := Some(record);
    }

    method Stop(reason: string, now: int) returns (snapshot: Option<Record>)
      modifies this
      ensures After(Stopped(old(record), reason, now))
      ensures snapshot == Returned(Stopped(old(record), reason, now))
    {
      if Terminal(record.status) { return Some(record); }
      if record.status != STOPPING {
        snapshot := Transition(STOPPING, now, reason);
        if snapshot.None? { return; }
      }
      snapshot := Transition(COMPLETED, now, reason);
    }

    method Dispose(now: int) returns (snapshot: Option<Record>)
      modifies this
      ensures After(Disposed(old(record), now))
      ensures snapshot == Returned(Disposed(old(record), now))
    {
      if record.status == DISPOSED { return Some(record); }
      if record.status != COMPLETED && record.status != FAILED {
        snapshot := Stop("disposed", now);
        if snapshot.None? { return; }
      }
      snapshot := Transition(DISPOSED, now, "");
    }
  }

  // Runs.

  datatype Call = Transition(next: Status, now: int, reason: string) | Stop(reason: string, now: int) | Dispose(now: int)

  /** A session and what has happened to it: the statuses entered, the latest clock reading. */
  datatype State = State(record: Record, entered: seq<Status>, clock: int)

  function Start(now: int): State { State(Created(now), [], now) }

  function ResultOf(r: Record, call: Call): Result {
    match call
    case Transition(next, now, reason) => Transitioned(r, next, now, reason)
    case Stop(reason, now) => Stopped(r, reason, now)
    case Dispose(now) => Disposed(r, now)
  }

  function Step(s: State, call: Call): State {
    var result := ResultOf(s.record, call);
    if result.InvalidTransition? then s.(clock := call.now)
    else State(result.record, s.entered + result.path, call.now)
  }

  function Run(now: int, calls: seq<Call>): State {
    if calls == [] then Start(now) else Step(Run(now, calls[..|calls| - 1]), calls[|calls| - 1])
  }

  /** Moves still possible without pausing. */
  function Rank(s: Status): nat {
    match s
    case CREATED => 7
    case PREFLIGHT => 6
    case READY => 5
    case STARTING => 4
    case PAUSED => 4
    case ACTIVE => 3
    case STOPPING => 2
    case COMPLETED => 1
    case FAILED => 1
    case DISPOSED => 0
  }

  /** Where a stop and a dispose lead, from anywhere but the start. */
  lemma StopAndDisposeOutcome(r: Record, reason: string, now: int)
    ensures Stopped(r, reason, now).Snapshot? <==> !r.status.CREATED?
    ensures Disposed(r, now).Snapshot? <==> !r.status.CREATED?
    ensures !r.status.CREATED? ==>
              && Terminal(Stopped(r, reason, now).record.status)
              && (!Terminal(r.status) ==> Stopped(r, reason, now).record.status.COMPLETED?)
              && Disposed(r, now).record.status.DISPOSED?
  {}

  lemma StepKeepsHistory(s: State, call: Call)
    ensures var t := Step(s, call);
            && s.entered <= t.entered
            && (s.record.status.DISPOSED? ==> t.record == s.record && t.entered == s.entered)
            && (s.record.endedAt.Some? ==> t.record.endedAt == s.record.endedAt)
            && (s.record.startedAt.Some? ==> t.record.startedAt == s.record.startedAt)
  {
    match call
    case Transition(next, _, _) =>
    case Stop(reason, now) => StopAndDisposeOutcome(s.record, reason, now);
    case Dispose(now) => StopAndDisposeOutcome(s.record, "disposed", now);
  }

  /** A walk through the transition table. */
  predicate Legal(start: Status, path: seq<Status>, end: Status)
    decreases |path|
  {
    if path == [] then start == end else path[0] in Transitions(start) && Legal(path[0], path[1..], end)
  }

  function Pauses(path: seq<Status>): nat {
    if path == [] then 0 else (if path[0].PAUSED? then 1 else 0) + Pauses(path[1..])
  }

  lemma {:induction false} Onwards(start: Status, path: seq<Status>, middle: Status, more: seq<Status>, end: Status)
    requires Legal(start, path, middle) && Legal(middle, more, end)
    ensures Legal(start, path + more, end) && Pauses(path + more) == Pauses(path) + Pauses(more)
    decreases |path|
  {
    if path == [] {
      assert path + more == more;
    } else {
      assert (path + more)[1..] == path[1..] + more;
      Onwards(path[0], path[1..], middle, more, end);
    }
  }

  /** Along any walk each step spends rank, of which a pause gives two back. */
  lemma {:induction false} WalkSpendsRank(start: Status, path: seq<Status>, end: Status)
    requires Legal(start, path, end)
    ensures |path| + Rank(end) <= Rank(start) + 2 * Pauses(path)
    decreases |path|
  {
    if path != [] { WalkSpendsRank(path[0], path[1..], end); }
  }

  lemma {:induction false} OneStepIsLegal(start: Status, next: Status)
    requires next in Transitions(start)
    ensures Legal(start, [next], next)
  {
    assert [next][1..] == [];
  }

  lemma {:induction false} TransitionIsLegal(r: Record, next: Status, now: int, reason: string)
    requires Transitioned(r, next, now, reason).Snapshot?
    ensures var to := Transitioned(r, next, now, reason); Legal(r.status, to.path, to.record.status)
  {
    if r.status != next { OneStepIsLegal(r.status, next); }
  }

  lemma {:induction false} StopIsLegal(r: Record, reason: string, now: int)
    requires Stopped(r, reason, now).Snapshot?
    ensures var to := Stopped(r, reason, now); Legal(r.status, to.path, to.record.status)
  {
    if !Terminal(r.status) {
      var first := if r.status.STOPPING? then Snapshot(r, []) else Transitioned(r, STOPPING, now, reason);
      var second := Transitioned(first.record, COMPLETED, now, reason);
      TransitionIsLegal(first.record, COMPLETED, now, reason);
      if !r.status.STOPPING? { TransitionIsLegal(r, STOPPING, now, reason); }
      Onwards(r.status, first.path, first.record.status, second.path, second.record.status);
    }
  }

  lemma {:induction false} DisposeIsLegal(r: Record, now: int)
    requires Disposed(r, now).Snapshot?
    ensures var to := Disposed(r, now); Legal(r.status, to.path, to.record.status)
  {
    if !r.status.DISPOSED? {
      var ended := r.status.COMPLETED? || r.status.FAILED?;
      var first := if ended then Snapshot(r, []) else Stopped(r, "disposed", now);
      var second := Transitioned(first.record, DISPOSED, now, "");
      TransitionIsLegal(first.record, DISPOSED, now, "");
      if !ended { StopIsLegal(r, "disposed", now); }
      Onwards(r.status, first.path, first.record.status, second.path, second.record.status);
    }
  }

  /** Whatever is called, the statuses entered are a walk through the table to the status held. */
  lemma {:induction false} RunIsLegal(now: int, calls: seq<Call>)
    ensures var s := Run(now, calls); Legal(CREATED, s.entered, s.record.status)
  {
    if calls != [] {
      var before, call := Run(now, calls[..|calls| - 1]), calls[|calls| - 1];
      RunIsLegal(now, calls[..|calls| - 1]);
      var result := ResultOf(before.record, call);
      if result.Snapshot? {
        match call {
          case Transition(next, now', reason) => TransitionIsLegal(before.record, next, now', reason);
          case Stop(reason, now') => StopIsLegal(before.record, reason, now');
          case Dispose(now') => DisposeIsLegal(before.record, now');
        }
        Onwards(CREATED, before.entered, before.record.status, result.path, result.record.status);
      }
    }
  }

  /** A run that enters p pauses enters at most 7 + 2p statuses, less the rank left. */
  lemma {:induction false} TransitionsAreBounded(now: int, calls: seq<Call>)
    ensures var s := Run(now, calls); |s.entered| + Rank(s.record.status) <= 7 + 2 * Pauses(s.entered)
  {
    RunIsLegal(now, calls);
    WalkSpendsRank(CREATED, Run(now, calls).entered, Run(now, calls).record.status);
  }

  lemma {:induction false} RunSnoc(now: int, calls: seq<Call>, call: Call)
    ensures Run(now, calls + [call]) == Step(Run(now, calls), call)
  {
    assert (calls + [call])[..|calls|] == calls;
  }

  /** The calls that enter the statuses of a path one by one. */
  function Calls(path: seq<Status>): seq<Call> {
    if path == [] then [] else Calls(path[..|path| - 1]) + [Transition(path[|path| - 1], 0, "")]
  }

  lemma {:induction false} LegalFront(start: Status, path: seq<Status>, end: Status) returns (middle: Status)
    requires Legal(start, path, end) && path != []
    ensures Legal(start, path[..|path| - 1], middle) && end == path[|path| - 1] && end in Transitions(middle)
    decreases |path|
  {
    if |path| == 1 {
      middle := start;
    } else {
      middle := LegalFront(path[0], path[1..], end);
      assert path[1..][..|path| - 2] == path[..|path| - 1][1..];
    }
  }

  lemma {:induction false} EntersNext(calls: seq<Call>, next: Status)
    requires next in Transitions(Run(0, calls).record.status)
    ensures var s, t := Run(0, calls), Run(0, calls + [Transition(next, 0, "")]);
            t.record.status == next && t.entered == s.entered + [next]
  {
    RunSnoc(0, calls, Transition(next, 0, ""));
    assert next != Run(0, calls).record.status;
  }

  /** The calls of a path enter just its statuses. */
  predicate Follows(path: seq<Status>, end: Status) {
    Run(0, Calls(path)).entered == path && Run(0, Calls(path)).record.status == end
  }

  lemma {:induction false} FollowsOn(front: seq<Status>, middle: Status, end: Status)
    requires Follows(front, middle) && end in Transitions(middle)
    ensures Follows(front + [end], end)
  {
    assert (front + [end])[..|front|] == front;
    EntersNext(Calls(front), end);
  }

  lemma {:induction false} FollowsNothing()
    ensures Follows([], CREATED)
  {}

  /** And every walk through the table is the path of a run. */
  lemma {:induction false} WalkIsARun(path: seq<Status>, end: Status)
    requires Legal(CREATED, path, end)
    ensures Follows(path, end)
    decreases |path|
  {
    if path == [] {
      FollowsNothing();
    } else {
      var front := path[..|path| - 1];
      var middle := LegalFront(CREATED, path, end);
      WalkIsARun(front, middle);
      FollowsOn(front, middle, end);
      assert front + [end] == path;
    }
  }

  /** From the start to just active, then p times paused and resumed. */
  function PausingPath(p: nat): (path: seq<Status>)
    ensures |path| == 4 + 2 * p
  {
    if p == 0 then [PREFLIGHT, READY, STARTING, ACTIVE] else PausingPath(p - 1) + [PAUSED, ACTIVE]
  }

  lemma {:induction false} TwoSteps(start: Status, first: Status, second: Status)
    requires first in Transitions(start) && second in Transitions(first)
    ensures Legal(start, [first, second], second)
    ensures Pauses([first, second]) == (if first.PAUSED? then 1 else 0) + if second.PAUSED? then 1 else 0
  {
    assert [first, second][1..] == [second] && [second][1..] == [];
    assert Pauses([second]) == (if second.PAUSED? then 1 else 0) + Pauses([]);
  }

  lemma {:induction false} PausingPathIsLegal(p: nat)
    ensures Legal(CREATED, PausingPath(p), ACTIVE) && Pauses(PausingPath(p)) == p
  {
    if p == 0 {
      TwoSteps(CREATED, PREFLIGHT, READY);
      TwoSteps(READY, STARTING, ACTIVE);
      Onwards(CREATED, [PREFLIGHT, READY], READY, [STARTING, ACTIVE], ACTIVE);
      assert [PREFLIGHT, READY] + [STARTING, ACTIVE] == PausingPath(0);
    } else {
      PausingPathIsLegal(p - 1);
      TwoSteps(ACTIVE, PAUSED, ACTIVE);
      Onwards(CREATED, PausingPath(p - 1), ACTIVE, [PAUSED, ACTIVE], ACTIVE);
    }
  }

  /** The bound is reached, for every number of pauses. */
  lemma {:induction false} BoundIsReached(p: nat) returns (calls: seq<Call>)
    ensures var s := Run(0, calls);
            s.record.status.DISPOSED? && |s.entered| == 7 + 2 * p && Pauses(s.entered) == p
  {
    var path := PausingPath(p) + [STOPPING, COMPLETED] + [DISPOSED];
    PausingPathIsLegal(p);
    TwoSteps(ACTIVE, STOPPING, COMPLETED);
    Onwards(CREATED, PausingPath(p), ACTIVE, [STOPPING, COMPLETED], COMPLETED);
    OneStepIsLegal(COMPLETED, DISPOSED);
    Onwards(CREATED, PausingPath(p) + [STOPPING, COMPLETED], COMPLETED, [DISPOSED], DISPOSED);
    assert [DISPOSED][1..] == [];
    calls := Calls(path);
    WalkIsARun(path, DISPOSED);
  }

  /** A moment that, when recorded, is no earlier than `from` and no later than `to`. */
  predicate Between(from: int, moment: Option<int>, to: int) {
    moment.Some? ==> from <= moment.value <= to
  }

  /** The record's timeline, as of a clock reading. */
  predicate Timeline(r: Record, clock: int) {
    && r.createdAt <= clock
    && Between(r.createdAt, r.preflightCompletedAt, clock)
    && (r.startedAt.Some? ==>
          r.preflightCompletedAt.Some? && Between(r.preflightCompletedAt.value, r.startedAt, clock))
    && (r.preflightCompletedAt.Some? ==> Between(r.preflightCompletedAt.value, r.endedAt, clock))
    && (r.startedAt.Some? ==> Between(r.startedAt.value, r.endedAt, clock))
    && Between(r.createdAt, r.endedAt, clock)
    && (r.endedAt.Some? <==> Terminal(r.status))
    && (r.status.CREATED? || r.status.PREFLIGHT? ==> r.preflightCompletedAt.None?)
    && (r.status.READY? || r.status.STARTING? ==> r.preflightCompletedAt.Some? && r.startedAt.None?)
    && (r.status.ACTIVE? || r.status.PAUSED? ==> r.preflightCompletedAt.Some? && r.startedAt.Some?)
  }

  lemma MoveKeepsTimeline(r: Record, next: Status, clock: int, now: int, reason: string)
    requires Timeline(r, clock) && clock <= now && Transitioned(r, next, now, reason).Snapshot?
    ensures Timeline(Transitioned(r, next, now, reason).record, now)
  {}

  lemma StopKeepsTimeline(r: Record, clock: int, now: int, reason: string)
    requires Timeline(r, clock) && clock <= now && Stopped(r, reason, now).Snapshot?
    ensures Timeline(Stopped(r, reason, now).record, now)
  {
    if !Terminal(r.status) {
      if r.status.STOPPING? {
        MoveKeepsTimeline(r, COMPLETED, clock, now, reason);
      } else {
        MoveKeepsTimeline(r, STOPPING, clock, now, reason);
        MoveKeepsTimeline(Transitioned(r, STOPPING, now, reason).record, COMPLETED, now, now, reason);
      }
    }
  }

  lemma StepKeepsTimeline(s: State, call: Call)
    requires Timeline(s.record, s.clock) && s.clock <= call.now
    ensures Timeline(Step(s, call).record, call.now)
  {
    if ResultOf(s.record, call).Snapshot? {
      match call
      case Transition(next, now, reason) => MoveKeepsTimeline(s.record, next, s.clock, now, reason);
      case Stop(reason, now) => StopKeepsTimeline(s.record, s.clock, now, reason);
      case Dispose(now) =>
        if s.record.status.COMPLETED? || s.record.status.FAILED? {
          MoveKeepsTimeline(s.record, DISPOSED, s.clock, now, "");
        } else if !s.record.status.DISPOSED? {
          StopKeepsTimeline(s.record, s.clock, now, "disposed");
          MoveKeepsTimeline(Stopped(s.record, "disposed", now).record, DISPOSED, now, now, "");
        }
    }
  }

  /** Clock readings never go back. */
  ghost predicate Forwards(now: int, calls: seq<Call>) {
    forall k :: 0 <= k < |calls| ==> Run(now, calls[..k]).clock <= calls[k].now
  }

  /** With a clock that never goes back, created <= preflight <= first active <= ended, and
      the end is recorded exactly in the terminal statuses. */
  lemma {:induction false} TimelineHolds(now: int, calls: seq<Call>)
    requires Forwards(now, calls)
    ensures Timeline(Run(now, calls).record, Run(now, calls).clock)
    decreases |calls|
  {
    if calls != [] {
      var n := |calls| - 1;
      forall k | 0 <= k < n ensures Run(now, calls[..n][..k]).clock <= calls[..n][k].now {
        assert calls[..n][..k] == calls[..k];
      }
      TimelineHolds(now, calls[..n]);
      StepKeepsTimeline(Run(now, calls[..n]), calls[n]);
    }
  }

  /** What later calls can never change. */
  predicate Keeps(r: Record, later: Record) {
    && (r.endedAt.Some? ==> later.endedAt == r.endedAt)
    && (r.startedAt.Some? ==> later.startedAt == r.startedAt)
    && (r.status.DISPOSED? ==> later == r)
  }

  lemma {:induction false} NextKeeps(r: Record, s: State, call: Call)
    requires Keeps(r, s.record)
    ensures Keeps(r, Step(s, call).record)
  {
    StepKeepsHistory(s, call);
  }

  /** Once recorded, a session's start and end never change, and a disposed session never moves. */
  lemma {:induction false} HistoryIsFinal(now: int, calls: seq<Call>, more: seq<Call>)
    ensures Keeps(Run(now, calls).record, Run(now, calls + more).record)
    decreases |more|
  {
    if more == [] {
      assert calls + more == calls;
    } else {
      var n := |more| - 1;
      HistoryIsFinal(now, calls, more[..n]);
      assert calls + more == calls + more[..n] + [more[n]];
      RunSnoc(now, calls + more[..n], more[n]);
      NextKeeps(Run(now, calls).record, Run(now, calls + more[..n]), more[n]);
    }
  }
}
