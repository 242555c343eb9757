/** The hosted-disc chunk store, twice over: the store the page falls back to and the
    one its worker owns. What the file system answers is an argument of each operation;
    everything the store decides from that answer is modelled.

    The functions are the specification, the classes the two implementations. */
module DiscStore {
  import opened Wrappers
  import opened RecencyOrder

  datatype Config = Config(maxChunks: int, pinnedChunks: int)

  /** How opening, measuring and reading a chunk file turned out. */
  datatype Read =
    | Hit                        // the file has the expected size and its bytes arrived
    | BodyFailed                 // the right size, but the bytes could not be read
    | WrongSize(removed: bool)   // another size; `removed` when deleting the file worked
    | Unreadable                 // no such file, or it could not be opened or measured

  /** How creating and writing a chunk file turned out. */
  datatype Write = Written | OpenFailed | WriteFailed

  datatype Op = Get(index: int, read: Read) | Put(index: int, write: Write)

  /** What the caller of the page store sees. */
  datatype Outcome = Buffer | Null | Stored | Refused | Threw

  /** One operation's effect: the order it leaves, the chunks it evicted (in turn), its answer. */
  datatype Effect = Effect(order: seq<int>, victims: seq<int>, outcome: Outcome)

  function FirstUnpinned(order: seq<int>, pinned: int): (victim: Option<int>)
    ensures victim.None? <==> forall x :: x in order ==> x < pinned
    ensures victim.Some? ==> victim.value in order && victim.value >= pinned
  {
    if order == [] then None
    else
      assert order[0] in order && forall x :: x in order <==> x == order[0] || x in order[1..];
      if order[0] < pinned then FirstUnpinned(order[1..], pinned)
      else Some(order[0])
  }

  datatype Room = Room(order: seq<int>, victims: seq<int>, ok: bool)

  /** Evicts until one more chunk fits, or until only pinned chunks are left. */
  function MakeRoom(order: seq<int>, c: Config): Room
    decreases |order|
  {
    if |order| < c.maxChunks then Room(order, [], true)
    else match FirstUnpinned(order, c.pinnedChunks)
      case None => Room(order, [], false)
      case Some(victim) =>
        var rest := MakeRoom(Without(order, victim), c);
        Room(rest.order, [victim] + rest.victims, rest.ok)
  }

  function RoomFor(order: seq<int>, index: int, c: Config): Room {
    if index in order then Room(order, [], true) else MakeRoom(order, c)
  }

  function PageGet(order: seq<int>, index: int, read: Read): Effect {
    match read
    case Hit => Effect(Touched(order, index), [], Buffer)
    case BodyFailed => Effect(Touched(order, index), [], Threw)
    case WrongSize(removed) => Effect(if removed then Without(order, index) else order, [], Null)
    case Unreadable => Effect(order, [], Null)
  }

  function PagePut(order: seq<int>, index: int, write: Write, c: Config): Effect {
    var room := RoomFor(order, index, c);
    if !room.ok then Effect(room.order, room.victims, Refused)
    else
      var placed := Without(room.order, index) + [index];
      match write
      case Written => Effect(placed, room.victims, Stored)
      case OpenFailed => Effect(placed, room.victims, Threw)
      case WriteFailed => Effect(if index in order then placed else Without(placed, index), room.victims, Threw)
  }

  function PageStep(order: seq<int>, op: Op, c: Config): Effect {
    match op
    case Get(index, read) => PageGet(order, index, read)
    case Put(index, write) => PagePut(order, index, write, c)
  }

  function PageRun(order: seq<int>, ops: seq<Op>, c: Config): seq<int> {
    if ops == [] then order else PageStep(PageRun(order, ops[..|ops| - 1], c), ops[|ops| - 1], c).order
  }

  /** The message a worker posts back. */
  datatype Reply =
    | GetReply(buffer: bool, removed: bool)
    | PutReply(ok: bool, evicted: seq<int>)

  datatype WorkerEffect = WorkerEffect(order: seq<int>, victims: seq<int>, reply: Reply)

  function WorkerGet(order: seq<int>, index: int, read: Read): WorkerEffect {
    match read
    case Hit => WorkerEffect(Touched(order, index), [], GetReply(true, false))
    case WrongSize(_) => WorkerEffect(Without(order, index), [], GetReply(false, true))
    case _ => WorkerEffect(order, [], GetReply(false, false))
  }

  function WorkerPut(order: seq<int>, index: int, write: Write, c: Config): WorkerEffect {
    var room := RoomFor(order, index, c);
    if !room.ok then WorkerEffect(room.order, room.victims, PutReply(false, room.victims))
    else
      var placed := Without(room.order, index) + [index];
      if write.Written? then WorkerEffect(placed, room.victims, PutReply(true, room.victims))
      else WorkerEffect(if index in order then placed else Without(placed, index), room.victims, PutReply(false, []))
  }

  function WorkerStep(order: seq<int>, op: Op, c: Config): WorkerEffect {
    match op
    case Get(index, read) => WorkerGet(order, index, read)
    case Put(index, write) => WorkerPut(order, index, write, c)
  }

  lemma {:induction false} FirstUnpinnedAt(order: seq<int>, pinned: int, at: nat)
    requires at < |order| && order[at] >= pinned
    requires forall k :: 0 <= k < at ==> order[k] < pinned
    ensures FirstUnpinned(order, pinned) == Some(order[at])
  {
    if at > 0 { FirstUnpinnedAt(order[1..], pinned, at - 1); }
  }

  /** `set` then `touch`: whether or not the chunk was stored, it ends up newest. */
  lemma {:induction false} PlacedLast(order: seq<int>, index: int)
    ensures Touched(order, index) == if index in order then Without(order, index) + [index] else order
    ensures index !in order ==> Touched(order + [index], index) == Without(order, index) + [index]
  {
    if index !in order { WithoutAppended(order, index); }
  }

  lemma {:induction false} WithoutAppended(order: seq<int>, index: int)
    requires index !in order
    ensures Without(order + [index], index) == order
  {
    if order != [] {
      assert (order + [index])[1..] == order[1..] + [index];
      WithoutAppended(order[1..], index);
    } else {
      assert (order + [index])[1..] == [];
    }
  }

  /** Evicting one by one from `from` has reached `now` through `gone`, with `MakeRoom` still to finish. */
  ghost predicate Evicting(from: seq<int>, now: seq<int>, gone: seq<int>, c: Config) {
    var left := MakeRoom(now, c);
    MakeRoom(from, c) == Room(left.order, gone + left.victims, left.ok)
  }

  lemma EvictingStep(from: seq<int>, now: seq<int>, gone: seq<int>, c: Config)
    requires Evicting(from, now, gone, c) && |now| >= c.maxChunks
    ensures var victim := FirstUnpinned(now, c.pinnedChunks);
            if victim.None? then MakeRoom(from, c) == Room(now, gone, false)
            else Evicting(from, Without(now, victim.value), gone + [victim.value], c)
  {
    var victim := FirstUnpinned(now, c.pinnedChunks);
    if victim.Some? {
      var rest := MakeRoom(Without(now, victim.value), c);
      assert gone + ([victim.value] + rest.victims) == gone + [victim.value] + rest.victims;
    }
  }

  /** Nothing is left to evict: what has been reached is what `MakeRoom` leaves. */
  lemma EvictingDone(from: seq<int>, now: seq<int>, gone: seq<int>, c: Config)
    requires Evicting(from, now, gone, c) && |now| < c.maxChunks
    ensures MakeRoom(from, c) == Room(now, gone, true)
  {
    assert gone + [] == gone;
  }

  /** The in-page store: an object with a `Map` it re-keys in place. */
  class PageStore {
    var stored: seq<int>
    const config: Config

    constructor (onDisk: seq<int>, config: Config)
      ensures stored == onDisk && this.config == config
    {
      stored := onDisk;
      this.config := config;
    }

    method Touch(index: int)
      modifies this`stored
      ensures stored == Touched(old(stored), index)
    {
      if index !in stored { return; }
      stored := Without(stored, index);
      stored := stored + [index];
    }

    method EvictOne() returns (victim: Option<int>)
      modifies this`stored
      ensures victim == FirstUnpinned(old(stored), config.pinnedChunks)
      ensures stored == if victim.Some? then Without(old(stored), victim.value) else old(stored)
    {
      for i := 0 to |stored|
        invariant stored == old(stored)
        invariant forall k :: 0 <= k < i ==> stored[k] < config.pinnedChunks
      {
        if stored[i] < config.pinnedChunks { continue; }
        FirstUnpinnedAt(stored, config.pinnedChunks, i);
        victim := Some(stored[i]);
        stored := Without(stored, stored[i]);
        return;
      }
      victim := None;
    }

    method GetChunk(index: int, read: Read) returns (outcome: Outcome)
      modifies this`stored
      ensures stored == PageGet(old(stored), index, read).order
      ensures outcome == PageGet(old(stored), index, read).outcome
    {
      match read {
        case Hit => Touch(index); outcome := Buffer;
        case BodyFailed => Touch(index); outcome := Threw;
        case WrongSize(removed) =>
          if removed { stored := Without(stored, index); }
          outcome := Null;
        case Unreadable => outcome := Null;
      }
    }

    method PutChunk(index: int, write: Write) returns (outcome: Outcome, victims: seq<int>)
      modifies this`stored
      ensures Effect(stored, victims, outcome) == PagePut(old(stored), index, write, config)
    {
      var isNew := index !in stored;
      victims := [];
      while isNew && |stored| >= config.maxChunks
        invariant index in old(stored) <==> index in stored
        invariant !isNew ==> stored == old(stored) && victims == []
        invariant isNew ==> Evicting(old(stored), stored, victims, config)
        decreases |stored|
      {
        EvictingStep(old(stored), stored, victims, config);
        var gone := EvictOne();
        if gone.None? { outcome := Refused; return; }
        victims := victims + [gone.value];
      }
      PlacedLast(stored, index);
      if isNew { EvictingDone(old(stored), stored, victims, config); }
      if index !in stored { stored := stored + [index]; }
      Touch(index);
      match write {
        case Written => outcome := Stored;
        case OpenFailed => outcome := Threw;
        case WriteFailed =>
          if isNew { stored := Without(stored, index); }
          outcome := Threw;
      }
    }
  }

  /** The worker's store: the same `Map`, answered by posted messages. */
  class WorkerStore {
    var stored: seq<int>
    const config: Config

    constructor (onDisk: seq<int>, config: Config)
      ensures stored == onDisk && this.config == config
    {
      stored := onDisk;
      this.config := config;
    }

    method Touch(index: int)
      modifies this`stored
      ensures stored == Touched(old(stored), index)
    {
      if index in stored {
        stored := Without(stored, index) + [index];
      }
    }

    method EvictOne() returns (victim: Option<int>)
      modifies this`stored
      ensures victim == FirstUnpinned(old(stored), config.pinnedChunks)
      ensures stored == if victim.Some? then Without(old(stored), victim.value) else old(stored)
    {
      var i := 0;
      while i < |stored|
        invariant 0 <= i <= |stored| && stored == old(stored)
        invariant forall k :: 0 <= k < i ==> stored[k] < config.pinnedChunks
      {
        if stored[i] >= config.pinnedChunks {
          FirstUnpinnedAt(stored, config.pinnedChunks, i);
          victim := Some(stored[i]);
          stored := Without(stored, stored[i]);
          return;
        }
        i := i + 1;
      }
      victim := None;
    }

    method GetChunk(index: int, read: Read) returns (reply: Reply)
      modifies this`stored
      ensures stored == WorkerGet(old(stored), index, read).order
      ensures reply == WorkerGet(old(stored), index, read).reply
    {
      match read {
        case WrongSize(_) =>
          stored := Without(stored, index);
          reply := GetReply(false, true);
        case Hit =>
          Touch(index);
          reply := GetReply(true, false);
        case _ => reply := GetReply(false, false);
      }
    }

    method PutChunk(index: int, write: Write) returns (reply: Reply, evicted: seq<int>)
      modifies this`stored
      ensures WorkerEffect(stored, evicted, reply) == WorkerPut(old(stored), index, write, config)
    {
      var isNew := index !in stored;
      evicted := [];
      while isNew && |stored| >= config.maxChunks
        invariant index in old(stored) <==> index in stored
        invariant !isNew ==> stored == old(stored) && evicted == []
        invariant isNew ==> Evicting(old(stored), stored, evicted, config)
        decreases |stored|
      {
        EvictingStep(old(stored), stored, evicted, config);
        var gone := EvictOne();
        if gone.None? { reply := PutReply(false, evicted); return; }
        evicted := evicted + [gone.value];
      }
      PlacedLast(stored, index);
      if isNew { EvictingDone(old(stored), stored, evicted, config); }
      if index !in stored { stored := stored + [index]; }
      Touch(index);
      if !write.Written? {
        if isNew { stored := Without(stored, index); }
        reply := PutReply(false, []);
        return;
      }
      reply := PutReply(true, evicted);
    }
  }
}
