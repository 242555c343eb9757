/** What a session's record says, told from the calls alone: whose clock each moment is, whose
    reason is kept, and which statuses lead to which. */
module SessionRecord {
  import opened Wrappers
  import opened GameSession

  /** The statuses a call enters, given what was entered before it. */
  function Entering(now: int, calls: seq<Call>): seq<Status>
    requires calls != []
  {
    var before, after := Run(now, calls[..|calls| - 1]).entered, Run(now, calls).entered;
    if |before| <= |after| then after[|before|..] else []
  }

  /** The clock of the first call that entered one of the statuses. */
  function FirstEntry(now: int, calls: seq<Call>, among: set<Status>): Option<int> {
    if calls == [] then None
    else
      var earlier := FirstEntry(now, calls[..|calls| - 1], among);
      if earlier.Some? then earlier
      else if exists st :: st in among && st in Entering(now, calls) then Some(calls[|calls| - 1].now)
      else None
  }

  /** The clock of the latest call that entered a status. */
  function LastEntry(now: int, calls: seq<Call>, status: Status): Option<int> {
    if calls == [] then None
    else if status in Entering(now, calls) then Some(calls[|calls| - 1].now)
    else LastEntry(now, calls[..|calls| - 1], status)
  }

  /** The reason a call brings: a dispose that has to stop first says so. */
  function ReasonOf(call: Call, entered: seq<Status>): string {
    match call
    case Transition(_, _, reason) => reason
    case Stop(reason, _) => reason
    case Dispose(_) => if COMPLETED in entered then "disposed" else ""
  }

  /** The last reason, other than none, brought by a call that entered anything. */
  function LastReason(now: int, calls: seq<Call>): string {
    if calls == [] then ""
    else
      var entered := Entering(now, calls);
      var reason := ReasonOf(calls[|calls| - 1], entered);
      if entered != [] && reason != "" then reason else LastReason(now, calls[..|calls| - 1])
  }

  /** What one call writes, by the statuses it enters. */
  predicate Writes(r: Record, now: int, entered: seq<Status>, t: Record) {
    && t.createdAt == r.createdAt
    && t.startedAt == (if r.startedAt.None? && ACTIVE in entered then Some(now) else r.startedAt)
    && t.preflightCompletedAt == (if READY in entered then Some(now) else r.preflightCompletedAt)
    && t.pausedAt == (if PAUSED in entered then Some(now) else r.pausedAt)
    && t.endedAt == (if r.endedAt.None? && (COMPLETED in entered || FAILED in entered || DISPOSED in entered)
                     then Some(now) else r.endedAt)
    && t.status == (if entered == [] then r.status else entered[|entered| - 1])
  }

  lemma {:induction false} TransitionWrites(r: Record, next: Status, now: int, reason: string)
    ensures var result := Transitioned(r, next, now, reason);
            result.Snapshot? ==>
              && Writes(r, now, result.path, result.record)
              && result.record.stopReason == (if result.path != [] && reason != "" then reason else r.stopReason)
              && result.path == (if r.status == next then [] else [next])
  {}

  lemma {:induction false} WritesTwice(r: Record, now: int, a: seq<Status>, m: Record, b: seq<Status>, t: Record)
    requires Writes(r, now, a, m) && Writes(m, now, b, t)
    ensures Writes(r, now, a + b, t)
  {}

  lemma {:induction false} StopWrites(r: Record, reason: string, now: int)
    ensures var result := Stopped(r, reason, now);
            result.Snapshot? ==>
              && Writes(r, now, result.path, result.record)
              && result.record.stopReason == (if result.path != [] && reason != "" then reason else r.stopReason)
              && result.path == (if Terminal(r.status) then [] else if r.status.STOPPING? then [COMPLETED] else [STOPPING, COMPLETED])
  {
    if !Terminal(r.status) && Stopped(r, reason, now).Snapshot? {
      var first := if r.status.STOPPING? then Snapshot(r, []) else Transitioned(r, STOPPING, now, reason);
      var second := Transitioned(first.record, COMPLETED, now, reason);
      TransitionWrites(r, STOPPING, now, reason);
      TransitionWrites(first.record, COMPLETED, now, reason);
      WritesTwice(r, now, first.path, first.record, second.path, second.record);
      assert [STOPPING] + [COMPLETED] == [STOPPING, COMPLETED] && [] + [COMPLETED] == [COMPLETED];
    }
  }

  lemma {:induction false} DisposeWrites(r: Record, now: int)
    ensures var result := Disposed(r, now);
            result.Snapshot? ==>
              && Writes(r, now, result.path, result.record)
              && result.record.stopReason == (if COMPLETED in result.path then "disposed" else r.stopReason)
              && result.path == (if r.status.DISPOSED? then [] else if Terminal(r.status) then [DISPOSED]
                                 else if r.status.STOPPING? then [COMPLETED, DISPOSED] else [STOPPING, COMPLETED, DISPOSED])
  {
    if !r.status.DISPOSED? && Disposed(r, now).Snapshot? {
      var first := if Terminal(r.status) then Snapshot(r, []) else Stopped(r, "disposed", now);
      var second := Transitioned(first.record, DISPOSED, now, "");
      StopWrites(r, "disposed", now);
      TransitionWrites(first.record, DISPOSED, now, "");
      WritesTwice(r, now, first.path, first.record, second.path, second.record);
      assert [] + [DISPOSED] == [DISPOSED] && [COMPLETED] + [DISPOSED] == [COMPLETED, DISPOSED];
      assert [STOPPING, COMPLETED] + [DISPOSED] == [STOPPING, COMPLETED, DISPOSED];
    }
  }

  lemma {:induction false} CallWrites(s: State, call: Call)
    ensures var t := Step(s, call);
            && |s.entered| <= |t.entered| && t.entered[..|s.entered|] == s.entered
            && Writes(s.record, call.now, t.entered[|s.entered|..], t.record)
            && t.record.stopReason == (var reason := ReasonOf(call, t.entered[|s.entered|..]);
                                       if t.entered[|s.entered|..] != [] && reason != "" then reason else s.record.stopReason)
  {
    match call
    case Transition(next, now, reason) => TransitionWrites(s.record, next, now, reason);
    case Stop(reason, now) => StopWrites(s.record, reason, now);
    case Dispose(now) => DisposeWrites(s.record, now);
  }

  /** Every moment and the reason in a record, told from the calls. */
  ghost predicate Told(now: int, calls: seq<Call>) {
    var r := Run(now, calls).record;
    && r.createdAt == now
    && r.startedAt == FirstEntry(now, calls, {ACTIVE})
    && r.preflightCompletedAt == LastEntry(now, calls, READY)
    && r.pausedAt == LastEntry(now, calls, PAUSED)
    && r.endedAt == FirstEntry(now, calls, {COMPLETED, FAILED, DISPOSED})
    && r.stopReason == LastReason(now, calls)
  }

  /** Over any run: the start is the clock of the first call to enter ACTIVE, preflight's end that of
      the latest to enter READY, the pause that of the latest to enter PAUSED, the end that of the
      first to enter a terminal status, and the reason the last one an effective call brought. */
  lemma {:induction false} RecordTellsTheRun(now: int, calls: seq<Call>)
    ensures Told(now, calls)
  {
    if calls != [] {
      var front, call := calls[..|calls| - 1], calls[|calls| - 1];
      RecordTellsTheRun(now, front);
      CallWrites(Run(now, front), call);
      ToldOn(now, calls);
    }
  }

  lemma {:induction false} ToldOn(now: int, calls: seq<Call>)
    requires calls != [] && Told(now, calls[..|calls| - 1])
    requires var s, t := Run(now, calls[..|calls| - 1]), Run(now, calls);
             var call := calls[|calls| - 1];
             && |s.entered| <= |t.entered|
             && Writes(s.record, call.now, t.entered[|s.entered|..], t.record)
             && t.record.stopReason == (var reason := ReasonOf(call, t.entered[|s.entered|..]);
                                        if t.entered[|s.entered|..] != [] && reason != "" then reason else s.record.stopReason)
    ensures Told(now, calls)
  {
    var entered := Entering(now, calls);
    assert (exists st :: st in {ACTIVE} && st in entered) <==> ACTIVE in entered by {
      if ACTIVE in entered { assert ACTIVE in {ACTIVE}; }
    }
    assert (exists st :: st in {COMPLETED, FAILED, DISPOSED} && st in entered)
           <==> COMPLETED in entered || FAILED in entered || DISPOSED in entered by {
      if COMPLETED in entered { assert COMPLETED in {COMPLETED, FAILED, DISPOSED}; }
      if FAILED in entered { assert FAILED in {COMPLETED, FAILED, DISPOSED}; }
      if DISPOSED in entered { assert DISPOSED in {COMPLETED, FAILED, DISPOSED}; }
    }
  }

  /** The statuses that lead to each: a transition to another status succeeds, entering just it,
      exactly from these, and otherwise fails. */
  function LeadsTo(next: Status): set<Status> {
    match next
    case CREATED => {}
    case PREFLIGHT => {CREATED}
    case READY => {PREFLIGHT}
    case STARTING => {READY}
    case ACTIVE => {STARTING, PAUSED}
    case PAUSED => {ACTIVE}
    case STOPPING => {PREFLIGHT, READY, STARTING, ACTIVE, PAUSED}
    case COMPLETED => {ACTIVE, STOPPING}
    case FAILED => {CREATED, PREFLIGHT, READY, STARTING, ACTIVE, PAUSED, STOPPING}
    case DISPOSED => {CREATED, STOPPING, COMPLETED, FAILED}
  }

  lemma {:induction false} EnteredExactlyFrom(r: Record, next: Status, now: int, reason: string)
    requires next != r.status
    ensures var result := Transitioned(r, next, now, reason);
            if r.status in LeadsTo(next) then result.Snapshot? && result.path == [next] && result.record.status == next
            else result.InvalidTransition?
  {}

  /** A transition to the status held does nothing, whatever clock and reason it brings. */
  lemma {:induction false} RepeatIsIdle(r: Record, now: int, reason: string)
    ensures Transitioned(r, r.status, now, reason) == Snapshot(r, [])
  {}
}
