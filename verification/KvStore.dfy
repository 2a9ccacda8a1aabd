/** The versioned key-value interface and its in-memory implementation.

    `Values` is the content of a store; every store method holds one lock for its whole body, so
    each is one atomic step from one `Values` to the next. The functions say what each step does,
    the class does it in place.
  */
module KvStore {

  datatype Entry = Entry(value: string, version: nat)

  /** What `Get` answers; an absent key reads as the empty value at version 0. */
  datatype VersionedValue = VersionedValue(value: string, version: nat, present: bool)

  datatype VersionCheck = VersionCheck(key: string, expectedVersion: nat)

  datatype WriteOp = WriteOp(key: string, value: string)

  type Values = map<string, Entry>

  /** The outcome of a conditional operation. */
  datatype Effect = Effect(values: Values, ok: bool)

  function Lookup(m: Values, key: string): VersionedValue {
    if key in m then VersionedValue(m[key].value, m[key].version, true) else VersionedValue("", 0, false)
  }

  /** A failed conditional put has still looked the key up by reference, which creates an absent
      key with an empty value at version 0. */
  function Touch(m: Values, key: string): Values {
    if key in m then m else m[key := Entry("", 0)]
  }

  function Written(m: Values, key: string, value: string): Values {
    m[key := Entry(value, Lookup(m, key).version + 1)]
  }

  function PutIf(m: Values, key: string, expected: nat, value: string): Effect {
    if Lookup(m, key).version != expected then Effect(Touch(m, key), false) else Effect(Written(m, key, value), true)
  }

  function DeleteIf(m: Values, key: string, expected: nat): Effect {
    if Lookup(m, key).version != expected then Effect(m, false) else Effect(m - {key}, true)
  }

  predicate ChecksHold(m: Values, checks: seq<VersionCheck>) {
    forall c <- checks :: Lookup(m, c.key).version == c.expectedVersion
  }

  function PutAll(m: Values, writes: seq<WriteOp>): Values
    decreases writes
  {
    if writes == [] then m else PutAll(Written(m, writes[0].key, writes[0].value), writes[1..])
  }

  function BatchPut(m: Values, checks: seq<VersionCheck>, writes: seq<WriteOp>): Effect {
    if ChecksHold(m, checks) then Effect(PutAll(m, writes), true) else Effect(m, false)
  }

  predicate DistinctKeys(writes: seq<WriteOp>) {
    forall i, j :: 0 <= i < j < |writes| ==> writes[i].key != writes[j].key
  }

  predicate WritesKey(writes: seq<WriteOp>, key: string) {
    exists w <- writes :: w.key == key
  }

  lemma {:induction false} PutAllFrame(m: Values, writes: seq<WriteOp>, key: string)
    requires !WritesKey(writes, key)
    ensures Lookup(PutAll(m, writes), key) == Lookup(m, key)
    decreases writes
  {
    if writes != [] {
      assert writes[0] in writes;
      assert forall w <- writes[1..] :: w in writes;
      PutAllFrame(Written(m, writes[0].key, writes[0].value), writes[1..], key);
    }
  }

  /** A batch of distinct keys bumps each written key by exactly one version. */
  lemma {:induction false} PutAllLookup(m: Values, writes: seq<WriteOp>, i: nat)
    requires DistinctKeys(writes) && i < |writes|
    ensures Lookup(PutAll(m, writes), writes[i].key) ==
      VersionedValue(writes[i].value, Lookup(m, writes[i].key).version + 1, true)
    decreases writes
  {
    var m' := Written(m, writes[0].key, writes[0].value);
    if i == 0 {
      PutAllFrame(m', writes[1..], writes[0].key);
    } else {
      PutAllLookup(m', writes[1..], i - 1);
    }
  }

  lemma {:induction false} PutAllAppend(m: Values, writes: seq<WriteOp>, w: WriteOp)
    ensures PutAll(m, writes + [w]) == Written(PutAll(m, writes), w.key, w.value)
    decreases writes
  {
    if writes != [] {
      assert (writes + [w])[1..] == writes[1..] + [w];
      PutAllAppend(Written(m, writes[0].key, writes[0].value), writes[1..], w);
    } else {
      assert writes + [w] == [w];
    }
  }

  // ---- Histories ----

  /** One atomic operation by any client of the store. */
  datatype StoreOp =
    | PutOp(key: string, value: string)
    | PutIfOp(key: string, expected: nat, value: string)
    | DeleteIfOp(key: string, expected: nat)
    | BatchOp(checks: seq<VersionCheck>, writes: seq<WriteOp>)

  function Apply(m: Values, op: StoreOp): Values {
    match op
    case PutOp(k, v) => Written(m, k, v)
    case PutIfOp(k, e, v) => PutIf(m, k, e, v).values
    case DeleteIfOp(k, e) => DeleteIf(m, k, e).values
    case BatchOp(checks, writes) => BatchPut(m, checks, writes).values
  }

  /** The store after the first `t` operations of a history. */
  function After(m: Values, history: seq<StoreOp>, t: nat): Values
    requires t <= |history|
  {
    if t == 0 then m else Apply(After(m, history, t - 1), history[t - 1])
  }

  /** The operation removes the key. A delete that is refused, or of an absent key, removes nothing. */
  predicate Erases(m: Values, op: StoreOp, key: string) {
    op.DeleteIfOp? && op.key == key && key in m && m[key].version == op.expected
  }

  /** No operation from `t0` to `t1` removes the key. */
  ghost predicate Kept(m: Values, history: seq<StoreOp>, t0: nat, t1: nat, key: string)
    requires t1 <= |history|
  {
    forall t :: t0 <= t < t1 ==> !Erases(After(m, history, t), history[t], key)
  }

  /** `b` may follow `a` when nothing is deleted in between: versions only grow, and a version that
      did not move pins the value. A key that exists keeps existing. */
  predicate Newer(a: VersionedValue, b: VersionedValue) {
    && a.version <= b.version
    && (a.version == b.version ==> a.value == b.value)
    && (a.present ==> b.present)
  }

  lemma {:induction false} PutAllIsNewer(m: Values, writes: seq<WriteOp>, key: string)
    ensures Newer(Lookup(m, key), Lookup(PutAll(m, writes), key))
    decreases writes
  {
    if writes != [] {
      PutAllIsNewer(Written(m, writes[0].key, writes[0].value), writes[1..], key);
    }
  }

  lemma ApplyIsNewer(m: Values, op: StoreOp, key: string)
    requires !Erases(m, op, key)
    ensures Newer(Lookup(m, key), Lookup(Apply(m, op), key))
  {
    if op.BatchOp? {
      PutAllIsNewer(m, op.writes, key);
    }
  }

  /** While a key is not removed, reading the same version of it twice means reading the same value. */
  lemma {:induction false} VersionPinsValue(m: Values, history: seq<StoreOp>, t0: nat, t1: nat, key: string)
    requires t0 <= t1 <= |history| && Kept(m, history, t0, t1, key)
    ensures Newer(Lookup(After(m, history, t0), key), Lookup(After(m, history, t1), key))
    decreases t1 - t0
  {
    if t0 < t1 {
      VersionPinsValue(m, history, t0, t1 - 1, key);
      ApplyIsNewer(After(m, history, t1 - 1), history[t1 - 1], key);
    }
  }

  lemma {:induction false} AfterPrefix(m: Values, history: seq<StoreOp>, more: seq<StoreOp>, t: nat)
    requires t <= |history|
    ensures After(m, history + more, t) == After(m, history, t)
  {
    if t > 0 {
      AfterPrefix(m, history, more, t - 1);
    }
  }

  lemma {:induction false} AfterMore(m: Values, history: seq<StoreOp>, more: seq<StoreOp>, t: nat)
    requires t <= |more|
    ensures After(m, history + more, |history| + t) == After(After(m, history, |history|), more, t)
  {
    if t == 0 {
      AfterPrefix(m, history, more, |history|);
    } else {
      AfterMore(m, history, more, t - 1);
      assert (history + more)[|history| + t - 1] == more[t - 1];
    }
  }

  /** A key is removed at version `v` and put `v` times. */
  function Replaced(key: string, v: nat, value: string): (history: seq<StoreOp>)
    ensures |history| == v + 1
  {
    [DeleteIfOp(key, v)] + seq(v, _ => PutOp(key, value))
  }

  /** Removing it breaks that, whatever the store, the key and its version: a delete followed by as many
      puts as the key had versions brings the version back with any value one likes. */
  lemma DeleteUnpinsValue(m: Values, key: string, value: string)
    requires key in m && m[key].version > 0
    ensures var v := m[key].version;
      var history := Replaced(key, v, value);
      && Erases(m, history[0], key)
      && Lookup(After(m, history, v + 1), key) == VersionedValue(value, v, true)
  {
    var v := m[key].version;
    var history := Replaced(key, v, value);
    assert After(m, history, 1) == Apply(After(m, history, 0), history[0]) == m - {key};
    PutsCount(m, history, key, value, v);
  }

  lemma {:induction false} ReplacedAlone(m: Values, key: string, v: nat, value: string, other: string, t: nat)
    requires other != key && t <= v + 1
    ensures Lookup(After(m, Replaced(key, v, value), t), other) == Lookup(m, other)
  {
    if t > 0 {
      ReplacedAlone(m, key, v, value, other, t - 1);
    }
  }

  lemma {:induction false} PutsCount(m: Values, history: seq<StoreOp>, key: string, value: string, n: nat)
    requires 0 < n < |history| && Lookup(After(m, history, 1), key).version == 0
    requires forall t :: 1 <= t <= n ==> history[t] == PutOp(key, value)
    ensures Lookup(After(m, history, n + 1), key) == VersionedValue(value, n, true)
  {
    if n > 1 {
      PutsCount(m, history, key, value, n - 1);
    }
    assert After(m, history, n + 1) == Apply(After(m, history, n), history[n]);
  }

  // ---- The store object ----

  /** `MemoryKVStore`. `atomicBatch` is false for the variant that only forwards single-key
      operations to a `MemoryKVStore` and refuses every batch. */
  class MemoryKVStore {
    const atomicBatch: bool
    var values: Values

    constructor (atomicBatch: bool)
      ensures this.atomicBatch == atomicBatch && values == map[]
    {
      this.atomicBatch := atomicBatch;
      this.values := map[];
    }

    method Get(key: string) returns (r: VersionedValue)
      ensures r == Lookup(values, key)
    {
      if key !in values {
        return VersionedValue("", 0, false);
      }
      r := VersionedValue(values[key].value, values[key].version, true);
    }

    method GetVersion(key: string) returns (v: nat)
      ensures v == Lookup(values, key).version
    {
      var r := Get(key);
      v := r.version;
    }

    method Put(key: string, value: string)
      modifies this
      ensures values == Written(old(values), key, value)
    {
      var entry := if key in values then values[key] else Entry("", 0);
      values := values[key := Entry(value, entry.version + 1)];
    }

    method PutIfVersion(key: string, expected: nat, value: string) returns (ok: bool)
      modifies this
      ensures Effect(values, ok) == PutIf(old(values), key, expected, value)
    {
      if key !in values {
        values := values[key := Entry("", 0)];
      }
      var entry := values[key];
      if entry.version != expected {
        return false;
      }
      values := values[key := Entry(value, entry.version + 1)];
      ok := true;
      assert old(values)[key := Entry("", 0)][key := Entry(value, 1)] == old(values)[key := Entry(value, 1)];
    }

    method DeleteIfVersion(key: string, expected: nat) returns (ok: bool)
      modifies this
      ensures Effect(values, ok) == DeleteIf(old(values), key, expected)
    {
      var current := if key in values then values[key].version else 0;
      if current != expected {
        return false;
      }
      if key in values {
        values := values - {key};
      } else {
        assert values == values - {key};
      }
      ok := true;
    }

    method BatchPutIfVersion(checks: seq<VersionCheck>, writes: seq<WriteOp>) returns (ok: bool)
      modifies this
      ensures atomicBatch ==> Effect(values, ok) == BatchPut(old(values), checks, writes)
      ensures !atomicBatch ==> !ok && values == old(values)
    {
      if !atomicBatch {
        return false;
      }
      for i := 0 to |checks|
        invariant forall j :: 0 <= j < i ==> Lookup(values, checks[j].key).version == checks[j].expectedVersion
        invariant values == old(values)
      {
        var current := if checks[i].key in values then values[checks[i].key].version else 0;
        if current != checks[i].expectedVersion {
          assert !ChecksHold(values, checks) by { assert checks[i] in checks; }
          return false;
        }
      }
      for i := 0 to |writes|
        invariant PutAll(values, writes[i..]) == PutAll(old(values), writes)
      {
        var entry := if writes[i].key in values then values[writes[i].key] else Entry("", 0);
        values := values[writes[i].key := Entry(writes[i].value, entry.version + 1)];
        assert writes[i..][1..] == writes[i + 1..];
      }
      ok := true;
    }
  }
}
