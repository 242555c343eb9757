/** The client's replica of one zone's cabinet states, and the server it follows through a
    network that may lose, repeat and reorder messages. */
module CabinetReplica {
  import opened Wrappers

  datatype CabinetState = CabinetState(cabinetId: string, status: string, occupant: string)

  /** `cabinet:snapshot`: a bare array, or an envelope whose array may be missing. */
  datatype Snapshot =
    | Bare(cabinets: seq<CabinetState>)
    | Envelope(zoneId: string, revision: int, payload: Option<seq<CabinetState>>)

  /** `cabinet:delta`, or something that is not one. */
  datatype Delta =
    | Malformed
    | Delta(zoneId: string, previousRevision: int, revision: int, changes: seq<CabinetState>)

  datatype Replica = Replica(states: map<string, CabinetState>, revisions: map<string, int>, ready: bool)

  const LEGACY := "legacy"

  /** `forEach(state => states.set(state.cabinetId, state))`. */
  function SetAll(states: map<string, CabinetState>, changes: seq<CabinetState>): map<string, CabinetState> {
    if changes == [] then states
    else
      var last := changes[|changes| - 1];
      SetAll(states, changes[..|changes| - 1])[last.cabinetId := last]
  }

  function Recorded(r: Replica, zone: string): int {
    if zone in r.revisions then r.revisions[zone] else 0
  }

  function Snapshotted(r: Replica, s: Snapshot): (Replica, bool) {
    match s
    case Bare(cabinets) => (Replica(SetAll(map[], cabinets), r.revisions[LEGACY := 0], true), true)
    case Envelope(zoneId, revision, payload) =>
      if payload.None? then (r, false)
      else
        var zone := if zoneId == "" then LEGACY else zoneId;
        (Replica(SetAll(map[], payload.value), r.revisions[zone := revision], true), true)
  }

  function Applied(r: Replica, state: CabinetState): Replica {
    r.(states := r.states[state.cabinetId := state])
  }

  function Accepts(r: Replica, d: Delta): bool {
    d.Delta? && d.previousRevision == Recorded(r, d.zoneId)
  }

  function Patched(r: Replica, d: Delta): (Replica, bool) {
    if !Accepts(r, d) then (r, false)
    else (r.(states := SetAll(r.states, d.changes), revisions := r.revisions[d.zoneId := d.revision]), true)
  }

  function Blank(): Replica { Replica(map[], map[], false) }

  class CabinetVisualState {
    var states: map<string, CabinetState>
    var revisions: map<string, int>
    var ready: bool
    var resyncRequests: nat

    ghost function View(): Replica
      reads this
    {
      Replica(states, revisions, ready)
    }

    constructor ()
      ensures View() == Blank() && resyncRequests == 0
    {
      states, revisions, ready, resyncRequests := map[], map[], false, 0;
    }

    method ApplySnapshot(snapshot: Snapshot) returns (ok: bool)
      modifies this`states, this`revisions, this`ready
      ensures (View(), ok) == Snapshotted(old(View()), snapshot)
    {
      if snapshot.Envelope? && snapshot.payload.None? { return false; }
      var cabinets := if snapshot.Bare? then snapshot.cabinets else snapshot.payload.value;
      var zone := if snapshot.Bare? || snapshot.zoneId == "" then LEGACY else snapshot.zoneId;
      states := map[];
      for k := 0 to |cabinets|
        invariant states == SetAll(map[], cabinets[..k])
        invariant revisions == old(revisions)
      {
        assert cabinets[..k + 1][..k] == cabinets[..k];
        states := states[cabinets[k].cabinetId := cabinets[k]];
      }
      assert cabinets[..|cabinets|] == cabinets;
      revisions := revisions[zone := if snapshot.Bare? then 0 else snapshot.revision];
      ready, ok := true, true;
    }

    method Apply(state: CabinetState)
      modifies this`states
      ensures View() == Applied(old(View()), state)
    {
      states := states[state.cabinetId := state];
    }

    method ApplyDelta(delta: Delta) returns (ok: bool)
      modifies this
      ensures (View(), ok) == Patched(old(View()), delta)
      ensures resyncRequests == old(resyncRequests) + if delta.Delta? && !ok then 1 else 0
    {
      if delta.Malformed? { return false; }
      var current := if delta.zoneId in revisions then revisions[delta.zoneId] else 0;
      if delta.previousRevision != current {
        resyncRequests := resyncRequests + 1;
        return false;
      }
      for k := 0 to |delta.changes|
        invariant states == SetAll(old(states), delta.changes[..k])
        invariant revisions == old(revisions) && ready == old(ready) && resyncRequests == old(resyncRequests)
      {
        assert delta.changes[..k + 1][..k] == delta.changes[..k];
        Apply(delta.changes[k]);
      }
      assert delta.changes[..|delta.changes|] == delta.changes;
      revisions := revisions[delta.zoneId := delta.revision];
      ok := true;
    }

    method Reset()
      modifies this`states, this`revisions, this`ready
      ensures View() == Blank()
    {
      states, revisions, ready := map[], map[], false;
    }
  }

  /** The server's side of one zone: the cabinets it defines, and every change published so far.
      The zone's revision is the number of changes. */
  datatype Server = Server(zone: string, cabinets: seq<string>, log: seq<CabinetState>)

  function Available(id: string): CabinetState { CabinetState(id, "available", "") }

  function AllAvailable(ids: seq<string>): map<string, CabinetState> {
    if ids == [] then map[]
    else AllAvailable(ids[..|ids| - 1])[ids[|ids| - 1] := Available(ids[|ids| - 1])]
  }

  /** The server's states at a revision. */
  function StatesAt(s: Server, revision: nat): map<string, CabinetState>
    requires revision <= |s.log|
  {
    SetAll(AllAvailable(s.cabinets), s.log[..revision])
  }

  /** The states listed for a snapshot, in definition order. */
  function Listed(states: map<string, CabinetState>, ids: seq<string>): seq<CabinetState> {
    if ids == [] then []
    else
      var last := ids[|ids| - 1];
      Listed(states, ids[..|ids| - 1]) + [if last in states then states[last] else Available(last)]
  }

  function SnapshotAt(s: Server, revision: nat): Snapshot
    requires revision <= |s.log|
  {
    Envelope(s.zone, revision, Some(Listed(StatesAt(s, revision), s.cabinets)))
  }

  function DeltaTo(s: Server, revision: nat): Delta
    requires 1 <= revision <= |s.log|
  {
    Delta(s.zone, revision - 1, revision, [s.log[revision - 1]])
  }

  /** The snapshot a join sends: every cabinet, but neither zone nor revision. */
  function ZonelessAt(s: Server, revision: nat): Snapshot
    requires revision <= |s.log|
  {
    Envelope("", 0, Some(Listed(StatesAt(s, revision), s.cabinets)))
  }

  /** `versioned` remembers that no message without a revision has arrived since the last
      zoned snapshot or reset. */
  datatype World = World(server: Server, client: Replica, versioned: bool)

  /** Anything the server has ever sent may arrive, any number of times, in any order, or not at all. */
  datatype Event =
    | Publish(state: CabinetState)
    | SnapshotArrives(revision: nat)
    | ZonelessArrives(revision: nat)
    | DeltaArrives(revision: nat)
    | ChangeArrives(revision: nat)   // the unversioned notice of the same change
    | JunkArrives
    | ResetClient

  predicate Possible(w: World, e: Event) {
    match e
    case Publish(state) => state.cabinetId in w.server.cabinets
    case SnapshotArrives(revision) => revision <= |w.server.log|
    case ZonelessArrives(revision) => revision <= |w.server.log|
    case DeltaArrives(revision) => 1 <= revision <= |w.server.log|
    case ChangeArrives(revision) => 1 <= revision <= |w.server.log|
    case _ => true
  }

  function Step(w: World, e: Event): World
    requires Possible(w, e)
  {
    match e
    case Publish(state) => w.(server := w.server.(log := w.server.log + [state]))
    case SnapshotArrives(revision) =>
      w.(client := Snapshotted(w.client, SnapshotAt(w.server, revision)).0, versioned := true)
    case ZonelessArrives(revision) =>
      w.(client := Snapshotted(w.client, ZonelessAt(w.server, revision)).0, versioned := false)
    case DeltaArrives(revision) => w.(client := Patched(w.client, DeltaTo(w.server, revision)).0)
    case ChangeArrives(revision) =>
      w.(client := Applied(w.client, w.server.log[revision - 1]), versioned := false)
    case JunkArrives => w.(client := Patched(Snapshotted(w.client, Envelope(w.server.zone, 0, None)).0, Malformed).0)
    case ResetClient => w.(client := Blank(), versioned := true)
  }

  ghost predicate Reaches(w: World, events: seq<Event>, w': World)
    decreases |events|
  {
    if events == [] then w == w'
    else Possible(w, events[0]) && Reaches(Step(w, events[0]), events[1..], w')
  }

  /** The replica holds exactly the server's states at the revision it has recorded. */
  ghost predicate Agrees(w: World) {
    var revision := Recorded(w.client, w.server.zone);
    0 <= revision <= |w.server.log| && w.client.states == StatesAt(w.server, revision)
  }

  /** Every change published is to a cabinet of the zone. */
  ghost predicate Defined(s: Server) {
    forall k :: 0 <= k < |s.log| ==> s.log[k].cabinetId in s.cabinets
  }

  ghost predicate Inv(w: World) {
    && w.server.zone != ""
    && Defined(w.server)
    && (w.client.ready && w.versioned ==> Agrees(w))
  }

  lemma {:induction false} SetAllSnoc(states: map<string, CabinetState>, changes: seq<CabinetState>, c: CabinetState)
    ensures SetAll(states, changes + [c]) == SetAll(states, changes)[c.cabinetId := c]
  {
    assert (changes + [c])[..|changes|] == changes;
  }

  ghost predicate Keyed(states: map<string, CabinetState>) {
    forall id :: id in states ==> states[id].cabinetId == id
  }

  lemma {:induction false} AllAvailableKeys(ids: seq<string>)
    ensures Keyed(AllAvailable(ids)) && forall id :: id in AllAvailable(ids) <==> id in ids
  {
    if ids != [] {
      AllAvailableKeys(ids[..|ids| - 1]);
      assert ids == ids[..|ids| - 1] + [ids[|ids| - 1]];
    }
  }

  lemma {:induction false} SetAllKeys(states: map<string, CabinetState>, changes: seq<CabinetState>)
    requires Keyed(states) && forall k :: 0 <= k < |changes| ==> changes[k].cabinetId in states
    ensures Keyed(SetAll(states, changes)) && SetAll(states, changes).Keys == states.Keys
  {
    if changes != [] { SetAllKeys(states, changes[..|changes| - 1]); }
  }

  lemma StatesAtKeys(s: Server, revision: nat)
    requires revision <= |s.log| && Defined(s)
    ensures Keyed(StatesAt(s, revision)) && forall id :: id in StatesAt(s, revision) <==> id in s.cabinets
  {
    AllAvailableKeys(s.cabinets);
    SetAllKeys(AllAvailable(s.cabinets), s.log[..revision]);
  }

  /** Listing states by id and setting them one by one gives the states back. */
  lemma {:induction false} ListedRoundTrip(states: map<string, CabinetState>, ids: seq<string>)
    requires Keyed(states) && forall k :: 0 <= k < |ids| ==> ids[k] in states
    ensures var back := SetAll(map[], Listed(states, ids));
            (forall id :: id in back <==> id in ids) && forall id :: id in back ==> back[id] == states[id]
  {
    if ids != [] {
      var front, last := ids[..|ids| - 1], ids[|ids| - 1];
      ListedRoundTrip(states, front);
      SetAllSnoc(map[], Listed(states, front), states[last]);
      assert ids == front + [last];
    }
  }

  lemma SnapshotRestores(s: Server, revision: nat)
    requires revision <= |s.log| && Defined(s)
    ensures SetAll(map[], Listed(StatesAt(s, revision), s.cabinets)) == StatesAt(s, revision)
  {
    StatesAtKeys(s, revision);
    ListedRoundTrip(StatesAt(s, revision), s.cabinets);
  }

  lemma PublishKeepsInv(w: World, state: CabinetState)
    requires Inv(w) && state.cabinetId in w.server.cabinets
    ensures Inv(Step(w, Publish(state)))
  {
    var revision := Recorded(w.client, w.server.zone);
    if w.client.ready && w.versioned { assert (w.server.log + [state])[..revision] == w.server.log[..revision]; }
  }

  lemma SnapshotKeepsInv(w: World, revision: nat)
    requires Inv(w) && revision <= |w.server.log|
    ensures Inv(Step(w, SnapshotArrives(revision)))
  {
    SnapshotRestores(w.server, revision);
  }

  lemma NextStates(s: Server, revision: nat)
    requires 1 <= revision <= |s.log|
    ensures StatesAt(s, revision) == SetAll(StatesAt(s, revision - 1), [s.log[revision - 1]])
  {
    var change := s.log[revision - 1];
    assert s.log[..revision] == s.log[..revision - 1] + [change];
    SetAllSnoc(AllAvailable(s.cabinets), s.log[..revision - 1], change);
    SetAllSnoc(StatesAt(s, revision - 1), [], change);
    assert [] + [change] == [change];
  }

  lemma DeltaKeepsInv(w: World, revision: nat)
    requires Inv(w) && 1 <= revision <= |w.server.log|
    ensures Inv(Step(w, DeltaArrives(revision)))
  {
    NextStates(w.server, revision);
  }

  lemma StepKeepsInv(w: World, e: Event)
    requires Inv(w) && Possible(w, e)
    ensures Inv(Step(w, e))
  {
    match e
    case Publish(state) => PublishKeepsInv(w, state);
    case SnapshotArrives(revision) => SnapshotKeepsInv(w, revision);
    case DeltaArrives(revision) => DeltaKeepsInv(w, revision);
    case _ =>
  }

  /** Whatever arrives, a replica that has applied a zoned snapshot, and since then nothing
      without a revision, holds the server's states at exactly the revision it has recorded. */
  lemma {:induction false} ReplicaAgrees(w: World, events: seq<Event>, w': World)
    requires Inv(w) && Reaches(w, events, w')
    ensures Inv(w')
    ensures w'.client.ready && w'.versioned ==> Agrees(w')
    decreases |events|
  {
    if events != [] {
      StepKeepsInv(w, events[0]);
      ReplicaAgrees(Step(w, events[0]), events[1..], w');
    }
  }

  lemma StartsInSync(zone: string, cabinets: seq<string>)
    requires zone != ""
    ensures Inv(World(Server(zone, cabinets, []), Blank(), true))
  {}

  /** A zoned snapshot puts any replica back in step, whatever it held. */
  lemma SnapshotResynchronises(w: World, revision: nat)
    requires w.server.zone != "" && Defined(w.server) && revision <= |w.server.log|
    ensures var after := Step(w, SnapshotArrives(revision));
            Inv(after) && Agrees(after) && Recorded(after.client, after.server.zone) == revision
  {
    SnapshotRestores(w.server, revision);
  }

  /** A delta changes nothing unless it follows the recorded revision; then it moves the
      replica to its own revision. A stale, repeated or skipping one is always refused. */
  lemma DeltaIsAllOrNothing(w: World, revision: nat)
    requires Inv(w) && w.client.ready && w.versioned && 1 <= revision <= |w.server.log|
    ensures var (after, ok) := Patched(w.client, DeltaTo(w.server, revision));
            && (ok <==> revision == Recorded(w.client, w.server.zone) + 1)
            && (!ok ==> after == w.client)
            && (ok ==> Recorded(after, w.server.zone) == revision && after.states == StatesAt(w.server, revision))
  {
    NextStates(w.server, revision);
  }

  /** An unversioned `apply` keeps the agreement exactly when it says nothing new. */
  lemma UnversionedApply(w: World, state: CabinetState)
    requires Agrees(w)
    ensures Agrees(w.(client := Applied(w.client, state))) <==>
            state.cabinetId in w.client.states && w.client.states[state.cabinetId] == state
  {
    var before, after := w.client.states, Applied(w.client, state).states;
    assert state.cabinetId in after && after[state.cabinetId] == state;
    if state.cabinetId in before && before[state.cabinetId] == state { assert after == before; }
  }

  /** A snapshot without a zone brings the states of its revision but leaves the revision
      recorded for the zone alone, unless the zone is the legacy one, which it sets to 0. So the
      replica agrees exactly when the server's states were the same at both revisions, and the
      next delta is accepted exactly when both are one. */
  lemma ZonelessSnapshotAgreesExactly(w: World, revision: nat)
    requires w.server.zone != "" && Defined(w.server) && revision <= |w.server.log|
    requires 0 <= Recorded(w.client, w.server.zone) <= |w.server.log|
    ensures var recorded := if w.server.zone == LEGACY then 0 else Recorded(w.client, w.server.zone);
            var after := Step(w, ZonelessArrives(revision));
            && after.client.ready && after.client.states == StatesAt(w.server, revision)
            && Recorded(after.client, w.server.zone) == recorded
            && (Agrees(after) <==> StatesAt(w.server, revision) == StatesAt(w.server, recorded))
            && (revision < |w.server.log| ==>
                  (Accepts(after.client, DeltaTo(w.server, revision + 1)) <==> revision == recorded))
  {
    SnapshotRestores(w.server, revision);
  }

  /** A snapshot without its array and a malformed delta change nothing and are refused. */
  lemma JunkChangesNothing(r: Replica, zone: string, revision: int)
    ensures Snapshotted(r, Envelope(zone, revision, None)) == (r, false) && Patched(r, Malformed) == (r, false)
  {}

  /** Any other snapshot is taken whole: it makes the replica ready, leaves no state it does not
      list, holds the last it lists of each cabinet, and records one revision: a bare array under
      the legacy zone at 0, an envelope under its zone, or the legacy zone when it names none. */
  lemma SnapshotIsTakenWhole(r: Replica, cabinets: seq<CabinetState>, zone: string, revision: int, id: string, other: string)
    ensures var (bare, ok) := Snapshotted(r, Bare(cabinets));
            var (zoned, fine) := Snapshotted(r, Envelope(zone, revision, Some(cabinets)));
            var filed := if zone == "" then LEGACY else zone;
            && ok && fine && bare.ready && zoned.ready && bare.states == zoned.states
            && (id in zoned.states <==> exists k :: 0 <= k < |cabinets| && cabinets[k].cabinetId == id)
            && (cabinets != [] ==> zoned.states[cabinets[|cabinets| - 1].cabinetId] == cabinets[|cabinets| - 1])
            && Recorded(bare, LEGACY) == 0 && (other != LEGACY ==> Recorded(bare, other) == Recorded(r, other))
            && Recorded(zoned, filed) == revision && (other != filed ==> Recorded(zoned, other) == Recorded(r, other))
  {
    SetAllMembers(cabinets, id);
    if cabinets != [] { SetAllMembers(cabinets, cabinets[|cabinets| - 1].cabinetId); }
  }

  lemma {:induction false} SetAllMembers(cabinets: seq<CabinetState>, id: string)
    ensures id in SetAll(map[], cabinets) <==> exists k :: 0 <= k < |cabinets| && cabinets[k].cabinetId == id
  {
    if cabinets != [] {
      var front := cabinets[..|cabinets| - 1];
      SetAllMembers(front, id);
      if k :| 0 <= k < |front| && front[k].cabinetId == id { assert cabinets[k].cabinetId == id; }
    }
  }

  /** An unversioned `apply` sets its own cabinet and touches nothing else. */
  lemma ApplySetsOne(r: Replica, state: CabinetState, id: string)
    ensures var after := Applied(r, state);
            && after.revisions == r.revisions && after.ready == r.ready
            && state.cabinetId in after.states && after.states[state.cabinetId] == state
            && (id != state.cabinetId ==>
                  (id in after.states <==> id in r.states) && (id in r.states ==> after.states[id] == r.states[id]))
  {}

  /** A reset forgets everything: no state, no revision, not ready. */
  lemma ResetForgets(w: World)
    ensures var client := Step(w, ResetClient).client;
            client.states == map[] && client.revisions == map[] && !client.ready
  {}

  /** What a client that joins at revision `joined` holds after revision `now`, when every change
      since has arrived in order, each as a delta and then as an unversioned notice. */
  function Joined(s: Server, joined: nat, now: nat): Replica
    requires joined <= now <= |s.log|
    decreases now
  {
    if now == joined then Snapshotted(Blank(), ZonelessAt(s, joined)).0
    else Applied(Patched(Joined(s, joined, now - 1), DeltaTo(s, now)).0, s.log[now - 1])
  }

  /** Such a client follows the server's states at every revision. It accepts deltas exactly
      when it joined before the first change; joined later, it refuses every one and lives on
      the notices. */
  lemma {:induction false} JoinedClientFollows(s: Server, joined: nat, now: nat)
    requires s.zone != "" && Defined(s) && joined <= now <= |s.log|
    ensures var client := Joined(s, joined, now);
            && client.states == StatesAt(s, now)
            && Recorded(client, s.zone) == (if joined == 0 then now else 0)
            && (now < |s.log| ==> (Accepts(client, DeltaTo(s, now + 1)) <==> joined == 0))
    decreases now
  {
    if now == joined {
      SnapshotRestores(s, joined);
    } else {
      JoinedClientFollows(s, joined, now - 1);
      NextStates(s, now);
      SetAllSnoc(StatesAt(s, now - 1), [], s.log[now - 1]);
      assert [] + [s.log[now - 1]] == [s.log[now - 1]];
      SameTwice(StatesAt(s, now - 1), s.log[now - 1]);
    }
  }

  lemma SameTwice(states: map<string, CabinetState>, c: CabinetState)
    ensures states[c.cabinetId := c][c.cabinetId := c] == states[c.cabinetId := c]
  {}

  /** Joined after the first change, such a client refuses the next delta. */
  lemma LateJoinerRefusesDeltas(id: string)
    ensures var taken, freed := CabinetState(id, "in-use", "p"), Available(id);
            var s := Server("zone-a", [id], [taken, freed]);
            var client := Snapshotted(Blank(), ZonelessAt(s, 1)).0;
            !Patched(client, DeltaTo(s, 2)).1 && !Agrees(World(s, client, false))
  {
    var taken, freed := CabinetState(id, "in-use", "p"), Available(id);
    var s := Server("zone-a", [id], [taken, freed]);
    var w := World(s, Blank(), true);
    assert StatesAt(s, 1)[id] == taken by {
      SetAllSnoc(AllAvailable([id]), [], taken);
      assert s.log[..1] == [] + [taken];
    }
    assert StatesAt(s, 0)[id] == freed by {
      assert s.log[..0] == [];
      assert [id][..0] == [];
    }
    assert "zone-a"[0] == 'z' && LEGACY[0] == 'l';
    ZonelessSnapshotAgreesExactly(w, 1);
  }
}
