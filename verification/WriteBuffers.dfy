/** The write buffer of a branch, with the change log that lets it be cut back. */
module WriteBuffers {
  import opened Wrappers
  import opened Intents

  /** One upsert: the entry it replaced, if there was one. */
  datatype Change = Change(objectId: string, previous: Option<CacheEntry>)

  datatype Buffer = Buffer(order: seq<string>, entries: map<string, CacheEntry>, changes: seq<Change>)

  const EMPTY := Buffer([], map[], [])

  function Found(b: Buffer, objectId: string): Option<CacheEntry> {
    if objectId in b.entries then Some(b.entries[objectId]) else None
  }

  function Upserted(b: Buffer, e: CacheEntry): Buffer {
    Buffer(
      if e.objectId in b.entries then b.order else b.order + [e.objectId],
      b.entries[e.objectId := e],
      b.changes + [Change(e.objectId, Found(b, e.objectId))])
  }

  function RemoveFirst(order: seq<string>, objectId: string): seq<string> {
    if order == [] then []
    else if order[0] == objectId then order[1..]
    else [order[0]] + RemoveFirst(order[1..], objectId)
  }

  function UndoChange(b: Buffer): Buffer
    requires b.changes != []
  {
    var change := b.changes[|b.changes| - 1];
    var changes := b.changes[..|b.changes| - 1];
    match change.previous
    case Some(e) => Buffer(b.order, b.entries[change.objectId := e], changes)
    case None => Buffer(RemoveFirst(b.order, change.objectId), b.entries - {change.objectId}, changes)
  }

  function Truncated(b: Buffer, size: nat): Buffer
    decreases |b.changes|
  {
    if |b.changes| <= size then b else Truncated(UndoChange(b), size)
  }

  // ---- What every reachable buffer satisfies ----

  /** The order lists each buffered object once and nothing else, and entries sit under their own id. */
  ghost predicate Consistent(b: Buffer) {
    && (forall i, j :: 0 <= i < j < |b.order| ==> b.order[i] != b.order[j])
    && (forall id :: id in b.order <==> id in b.entries)
    && (forall id <- b.entries :: b.entries[id].objectId == id)
  }

  /** Consistent now and after undoing any number of changes, down to the empty buffer. */
  ghost predicate WellFormed(b: Buffer)
    decreases |b.changes|
  {
    Consistent(b) && if b.changes == [] then b == EMPTY else WellFormed(UndoChange(b))
  }

  lemma {:induction false} RemoveFirstOfLast(order: seq<string>, objectId: string)
    requires objectId !in order
    ensures RemoveFirst(order + [objectId], objectId) == order
  {
    if order != [] {
      assert (order + [objectId])[1..] == order[1..] + [objectId];
      RemoveFirstOfLast(order[1..], objectId);
    }
  }

  /** Undoing an upsert gives back the buffer before it: entries, order and change log. */
  lemma UndoUpsert(b: Buffer, e: CacheEntry)
    requires Consistent(b)
    ensures UndoChange(Upserted(b, e)) == b
  {
    var u := Upserted(b, e);
    assert u.changes[..|u.changes| - 1] == b.changes;
    if e.objectId in b.entries {
      assert b.entries[e.objectId := e][e.objectId := b.entries[e.objectId]] == b.entries;
    } else {
      RemoveFirstOfLast(b.order, e.objectId);
      assert b.entries[e.objectId := e] - {e.objectId} == b.entries;
    }
  }

  lemma UpsertKeepsWellFormed(b: Buffer, e: CacheEntry)
    requires WellFormed(b)
    ensures WellFormed(Upserted(b, e))
  {
    UndoUpsert(b, e);
    var u := Upserted(b, e);
    if e.objectId !in b.entries {
      assert e.objectId !in b.order;
    }
    assert Consistent(u);
  }

  lemma {:induction false} TruncateKeepsWellFormed(b: Buffer, size: nat)
    requires WellFormed(b)
    ensures WellFormed(Truncated(b, size))
    ensures |Truncated(b, size).changes| == if size < |b.changes| then size else |b.changes|
    ensures Truncated(b, size).changes <= b.changes
    decreases |b.changes|
  {
    if size < |b.changes| {
      TruncateKeepsWellFormed(UndoChange(b), size);
    }
  }

  /** Every entry of the buffer, and every entry that undoing could bring back, satisfies `p`. */
  ghost predicate Throughout(b: Buffer, p: CacheEntry -> bool) {
    && (forall id <- b.entries :: p(b.entries[id]))
    && (forall i :: 0 <= i < |b.changes| && b.changes[i].previous.Some? ==> p(b.changes[i].previous.value))
  }

  lemma UpsertKeepsThroughout(b: Buffer, e: CacheEntry, p: CacheEntry -> bool)
    requires Throughout(b, p) && p(e)
    ensures Throughout(Upserted(b, e), p)
  {
  }

  lemma {:induction false} TruncateKeepsThroughout(b: Buffer, size: nat, p: CacheEntry -> bool)
    requires Throughout(b, p)
    ensures Throughout(Truncated(b, size), p)
    decreases |b.changes|
  {
    if size < |b.changes| {
      TruncateKeepsThroughout(UndoChange(b), size, p);
    }
  }

  // ---- The undo log equals snapshots ----

  datatype BufferOp = UpsertOp(entry: CacheEntry) | TruncateOp(size: nat)

  function BufferStep(b: Buffer, op: BufferOp): Buffer {
    match op
    case UpsertOp(e) => Upserted(b, e)
    case TruncateOp(size) => Truncated(b, size)
  }

  function BufferRun(b: Buffer, ops: seq<BufferOp>): Buffer {
    if ops == [] then b else BufferStep(BufferRun(b, ops[..|ops| - 1]), ops[|ops| - 1])
  }

  lemma {:induction false} TruncateTwice(b: Buffer, size: nat, smaller: nat)
    requires smaller <= size
    ensures Truncated(Truncated(b, size), smaller) == Truncated(b, smaller)
    decreases |b.changes|
  {
    if size < |b.changes| {
      TruncateTwice(UndoChange(b), size, smaller);
    }
  }

  /** Truncation is a snapshot restore: take any reachable buffer, run any upserts and truncations on it
      that never cut below its size, truncate to that size, and it is exactly the old buffer. */
  lemma {:induction false} TruncateRestoresSnapshot(b: Buffer, ops: seq<BufferOp>)
    requires WellFormed(b)
    requires forall op <- ops :: op.TruncateOp? ==> op.size >= |b.changes|
    ensures WellFormed(BufferRun(b, ops)) && |BufferRun(b, ops).changes| >= |b.changes|
    ensures Truncated(BufferRun(b, ops), |b.changes|) == b
    decreases ops
  {
    if ops != [] {
      var before := BufferRun(b, ops[..|ops| - 1]);
      TruncateRestoresSnapshot(b, ops[..|ops| - 1]);
      match ops[|ops| - 1]
      case UpsertOp(e) =>
        UndoUpsert(before, e);
        UpsertKeepsWellFormed(before, e);
      case TruncateOp(size) =>
        TruncateTwice(before, size, |b.changes|);
        TruncateKeepsWellFormed(before, size);
    }
  }

  // ---- The buffer object ----

  class WriteBuffer {
    var order: seq<string>
    var entries: map<string, CacheEntry>
    var changes: seq<Change>

    constructor ()
      ensures State() == EMPTY
    {
      order, entries, changes := [], map[], [];
    }

    function State(): Buffer
      reads this
    {
      Buffer(order, entries, changes)
    }

    method Find(objectId: string) returns (entry: Option<CacheEntry>)
      ensures entry == Found(State(), objectId)
    {
      entry := if objectId in entries then Some(entries[objectId]) else None;
    }

    function Size(): nat
      reads this
    {
      |changes|
    }

    method Upsert(entry: CacheEntry)
      modifies this
      ensures State() == Upserted(old(State()), entry)
    {
      var previous := Find(entry.objectId);
      if previous.None? {
        order := order + [entry.objectId];
      }
      changes := changes + [Change(entry.objectId, previous)];
      entries := entries[entry.objectId := entry];
    }

    /** The buffered entries in first-write order. */
    method Entries() returns (ordered: seq<CacheEntry>)
      requires Consistent(State())
      ensures ordered == InOrder(State())
    {
      ordered := [];
      for i := 0 to |order|
        invariant |ordered| == i
        invariant forall j :: 0 <= j < i ==> order[j] in entries && ordered[j] == entries[order[j]]
      {
        assert order[i] in order;
        ordered := ordered + [entries[order[i]]];
      }
      EveryOrderedIsBuffered(State());
    }

    method EraseFromOrder(objectId: string)
      modifies this`order
      ensures order == RemoveFirst(old(order), objectId)
    {
      var i := 0;
      while i < |order| && order[i] != objectId
        invariant i <= |order| && order == old(order)
        invariant RemoveFirst(order, objectId) == order[..i] + RemoveFirst(order[i..], objectId)
      {
        assert order[i..][1..] == order[i + 1..];
        i := i + 1;
      }
      if i < |order| {
        assert order[i..][1..] == order[i + 1..];
        order := order[..i] + order[i + 1..];
      }
    }

    method Truncate(size: nat)
      modifies this
      ensures State() == Truncated(old(State()), size)
    {
      while |changes| > size
        invariant Truncated(State(), size) == Truncated(old(State()), size)
        decreases |changes|
      {
        var change := changes[|changes| - 1];
        ghost var before := State();
        changes := changes[..|changes| - 1];
        if change.previous.Some? {
          entries := entries[change.objectId := change.previous.value];
        } else {
          entries := entries - {change.objectId};
          EraseFromOrder(change.objectId);
        }
        assert State() == UndoChange(before);
      }
    }
  }

  lemma EveryOrderedIsBuffered(b: Buffer)
    requires Consistent(b)
    ensures forall i :: 0 <= i < |b.order| ==> b.order[i] in b.entries
  {
    forall i | 0 <= i < |b.order|
      ensures b.order[i] in b.entries
    {
      assert b.order[i] in b.order;
    }
  }

  function InOrder(b: Buffer): seq<CacheEntry>
    requires Consistent(b)
  {
    EveryOrderedIsBuffered(b);
    seq(|b.order|, i requires 0 <= i < |b.order| => b.entries[b.order[i]])
  }
}
