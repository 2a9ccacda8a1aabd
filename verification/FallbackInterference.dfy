/** The plain fallback commit while others use the store.

    The machine takes one store operation a step: look a key up, put it, undo one write. Between any
    two steps other clients may run any operation that names no key already applied and does not remove
    the one key that was just looked up and is about to be put. `alone` is the store those clients
    would have by themselves.
  */
module FallbackInterference {
  import opened KvStore
  import opened FallbackCommit

  datatype Stage =
    | Checking(i: nat)                        // about to look write i up
    | Putting(i: nat, seen: VersionedValue)   // looked it up, about to put it
    | Undoing(c: nat)                         // about to undo applied[c - 1]
    | Committed
    | Failed
    | Broken                                  // an undo was refused

  datatype Commit = Commit(store: Values, alone: Values, applied: seq<AppliedWrite>, stage: Stage)

  /** The next store operation of the commit. */
  function Next(writes: seq<WriteOp>, checks: map<string, nat>, s: Commit): Commit {
    match s.stage
    case Checking(i) =>
      if i >= |writes| then s.(stage := Committed)
      else if writes[i].key !in checks then s.(stage := Failed)
      else
        var current := Lookup(s.store, writes[i].key);
        s.(stage := if current.version != checks[writes[i].key] then Undoing(|s.applied|) else Putting(i, current))
    case Putting(i, seen) =>
      if i >= |writes| || writes[i].key !in checks then s
      else
        var put := PutIf(s.store, writes[i].key, checks[writes[i].key], writes[i].value);
        if put.ok then
          s.(store := put.values, stage := Checking(i + 1),
             applied := s.applied + [AppliedWrite(writes[i].key, seen.value, seen.version, seen.present)])
        else
          s.(store := put.values, stage := Undoing(|s.applied|))
    case Undoing(c) =>
      if c == 0 || c > |s.applied| then s.(stage := Failed)
      else
        var undone := UndoWrite(s.store, s.applied[c - 1]);
        s.(store := undone.values, stage := if undone.ok then Undoing(c - 1) else Broken)
    case _ => s
  }

  predicate Touches(op: StoreOp, key: string) {
    match op
    case PutOp(k, _) => k == key
    case PutIfOp(k, _, _) => k == key
    case DeleteIfOp(k, _) => k == key
    case BatchOp(checks, writes) => (exists c <- checks :: c.key == key) || WritesKey(writes, key)
  }

  /** Others touch no applied key, and between the look at a key and its put they do not remove it. They
      may remove any other key at any time. */
  predicate Allowed(writes: seq<WriteOp>, s: Commit, op: StoreOp) {
    && (forall a <- s.applied :: !Touches(op, a.key))
    && (s.stage.Putting? && s.stage.i < |writes| ==> !Erases(s.store, op, writes[s.stage.i].key))
  }

  function Disturbed(s: Commit, op: StoreOp): Commit {
    s.(store := Apply(s.store, op), alone := Apply(s.alone, op))
  }

  /** One step: the commit's own, or an operation of somebody else. */
  ghost predicate Step(writes: seq<WriteOp>, checks: map<string, nat>, s: Commit, t: Commit) {
    t == Next(writes, checks, s) || exists op :: Allowed(writes, s, op) && t == Disturbed(s, op)
  }

  ghost predicate StepAt(writes: seq<WriteOp>, checks: map<string, nat>, run: seq<Commit>, i: nat)
    requires 0 < i < |run|
  {
    Step(writes, checks, run[i - 1], run[i])
  }

  ghost predicate IsRun(writes: seq<WriteOp>, checks: map<string, nat>, run: seq<Commit>) {
    && run != []
    && run[0] == Commit(run[0].store, run[0].store, [], Checking(0))
    && forall i :: 0 < i < |run| ==> StepAt(writes, checks, run, i)
  }

  // ---- Without interference ----

  /** `n` steps of the commit with nobody else around. */
  function Alone(writes: seq<WriteOp>, checks: map<string, nat>, s: Commit, n: nat): Commit
    decreases n
  {
    if n == 0 then s else Alone(writes, checks, Next(writes, checks, s), n - 1)
  }

  lemma {:induction false} UndoingIsRollbackAll(writes: seq<WriteOp>, checks: map<string, nat>, s: Commit, c: nat)
    returns (n: nat)
    requires s.stage == Undoing(c) && c <= |s.applied|
    ensures var t := Alone(writes, checks, s, n);
      (t.stage.Failed? || t.stage.Broken?) && t.store == RollbackAll(s.store, s.applied[..c]).values
    decreases c
  {
    var next := Next(writes, checks, s);
    n := 1;
    assert Alone(writes, checks, s, 1) == Alone(writes, checks, next, 0);
    if c > 0 {
      assert s.applied[..c][..c - 1] == s.applied[..c - 1];
      if next.stage.Undoing? {
        var rest := UndoingIsRollbackAll(writes, checks, next, c - 1);
        n := rest + 1;
      }
    }
  }

  /** Left alone, the machine computes what `ApplyAll` says, and so what the code does. */
  lemma {:induction false} AloneIsApplyAll(writes: seq<WriteOp>, checks: map<string, nat>, s: Commit, i: nat)
    returns (n: nat)
    requires s.stage == Checking(i) && i <= |writes|
    ensures var t := Alone(writes, checks, s, n);
      && (t.stage.Committed? || t.stage.Failed? || t.stage.Broken?)
      && Effect(t.store, t.stage.Committed?) == ApplyAll(s.store, writes[i..], checks, s.applied)
    decreases |writes| - i
  {
    var looked := Next(writes, checks, s);
    n := 1;
    assert Alone(writes, checks, s, 1) == Alone(writes, checks, looked, 0);
    if i < |writes| {
      assert writes[i..][0] == writes[i] && writes[i..][1..] == writes[i + 1..];
      if looked.stage.Undoing? {
        var rest := UndoingIsRollbackAll(writes, checks, looked, |s.applied|);
        assert s.applied[..|s.applied|] == s.applied;
        n := rest + 1;
      } else if looked.stage.Putting? {
        var rest := AloneIsApplyAll(writes, checks, Next(writes, checks, looked), i + 1);
        assert Alone(writes, checks, looked, rest + 1) == Alone(writes, checks, Next(writes, checks, looked), rest);
        n := rest + 2;
      }
    }
  }

  // ---- What others do ----

  lemma {:induction false} PutAllAgrees(m: Values, m': Values, writes: seq<WriteOp>, key: string)
    requires Lookup(m, key) == Lookup(m', key)
    ensures Lookup(PutAll(m, writes), key) == Lookup(PutAll(m', writes), key)
    decreases writes
  {
    if writes != [] {
      var w := writes[0];
      PutAllAgrees(Written(m, w.key, w.value), Written(m', w.key, w.value), writes[1..], key);
    }
  }

  /** An operation does the same to two stores that agree on the keys it touches. */
  lemma ApplyAgrees(m: Values, m': Values, op: StoreOp, key: string)
    requires forall k :: Touches(op, k) ==> Lookup(m, k) == Lookup(m', k)
    requires Lookup(m, key) == Lookup(m', key)
    ensures Lookup(Apply(m, op), key) == Lookup(Apply(m', op), key)
  {
    if op.BatchOp? {
      PutAllAgrees(m, m', op.writes, key);
      forall c <- op.checks
        ensures Lookup(m, c.key) == Lookup(m', c.key)
      {
        assert Touches(op, c.key);
      }
    }
  }

  lemma ApplyFrame(m: Values, op: StoreOp, key: string)
    requires !Touches(op, key)
    ensures Lookup(Apply(m, op), key) == Lookup(m, key)
  {
    if op.BatchOp? {
      PutAllFrame(m, op.writes, key);
    }
  }

  // ---- The invariant ----

  /** The first `c` applied writes stand, the others are undone, and `applied` remembers what the others'
      store holds. */
  ghost predicate Standing(s: Commit, c: nat) {
    && c <= |s.applied|
    && (forall i, j :: 0 <= i < j < |s.applied| ==> s.applied[i].key != s.applied[j].key)
    && (forall i :: 0 <= i < |s.applied| ==> StandsAt(s, c, i))
    && (forall key :: !AppliesKey(s.applied, key) ==> Lookup(s.store, key) == Lookup(s.alone, key))
  }

  ghost predicate StandsAt(s: Commit, c: nat, i: nat)
    requires i < |s.applied|
  {
    var a := s.applied[i];
    && Remembers(a, Lookup(s.alone, a.key))
    && if i < c then Lookup(s.store, a.key).version == a.previousVersion + 1
       else Lookup(s.store, a.key) == Undone(a)
  }

  ghost predicate Remembers(a: AppliedWrite, before: VersionedValue) {
    && a.previousValue == before.value && a.previousVersion == before.version
    && (!a.previousExists ==> a.previousVersion == 0 && a.previousValue == "")
    && (before.version > 0 ==> a.previousExists)
  }

  /** An applied key once its write is undone. */
  function Undone(a: AppliedWrite): VersionedValue {
    if a.previousExists then VersionedValue(a.previousValue, a.previousVersion + 2, true)
    else VersionedValue("", 0, false)
  }

  /** The first `i` writes are in the store, and no others. */
  ghost predicate AppliedAre(writes: seq<WriteOp>, s: Commit, i: nat) {
    && i <= |writes| && |s.applied| == i
    && forall j :: 0 <= j < i ==>
         s.applied[j].key == writes[j].key && Lookup(s.store, writes[j].key).value == writes[j].value
  }

  ghost predicate Inv(writes: seq<WriteOp>, checks: map<string, nat>, s: Commit) {
    match s.stage
    case Checking(i) => AppliedAre(writes, s, i) && Standing(s, i)
    case Putting(i, seen) =>
      && i < |writes| && writes[i].key in checks && seen.version == checks[writes[i].key]
      && AppliedAre(writes, s, i) && Standing(s, i)
      && Newer(seen, Lookup(s.store, writes[i].key))
      && (seen.version > 0 ==> seen.present)
      && (!seen.present ==> seen.version == 0 && seen.value == "")
    case Undoing(c) => Standing(s, c)
    case Committed => AppliedAre(writes, s, |writes|) && Standing(s, |writes|)
    case Failed => Standing(s, 0)
    case Broken => false
  }

  predicate KeysChecked(writes: seq<WriteOp>, checks: map<string, nat>) {
    DistinctKeys(writes) && forall w <- writes :: w.key in checks
  }

  lemma PutFails(writes: seq<WriteOp>, checks: map<string, nat>, s: Commit)
    requires KeysChecked(writes, checks) && Inv(writes, checks, s) && s.stage.Putting?
    requires Next(writes, checks, s).stage.Undoing?
    ensures Inv(writes, checks, Next(writes, checks, s))
  {
    var i, t := s.stage.i, Next(writes, checks, s);
    forall j | 0 <= j < i
      ensures StandsAt(t, i, j)
    {
      assert StandsAt(s, i, j) && s.applied[j].key == writes[j].key != writes[i].key;
    }
  }

  lemma OneMoreStands(s: Commit, t: Commit, a: AppliedWrite)
    requires Standing(s, |s.applied|) && !AppliesKey(s.applied, a.key)
    requires t.applied == s.applied + [a] && t.alone == s.alone
    requires Remembers(a, Lookup(s.alone, a.key)) && Lookup(t.store, a.key).version == a.previousVersion + 1
    requires forall key :: key != a.key ==> Lookup(t.store, key) == Lookup(s.store, key)
    ensures Standing(t, |t.applied|)
  {
    var n := |t.applied|;
    forall j | 0 <= j < n
      ensures StandsAt(t, n, j)
      ensures j < n - 1 ==> t.applied[j].key != a.key
    {
      if j < n - 1 {
        assert StandsAt(s, n - 1, j) && s.applied[j] in s.applied;
      }
    }
    assert t.applied[n - 1] in t.applied && forall x <- s.applied :: x in t.applied;
  }

  /** A successful put adds a write that stands. */
  lemma PutStands(writes: seq<WriteOp>, checks: map<string, nat>, s: Commit)
    requires KeysChecked(writes, checks) && Inv(writes, checks, s) && s.stage.Putting?
    requires Next(writes, checks, s).stage.Checking?
    ensures Inv(writes, checks, Next(writes, checks, s))
  {
    var i, t := s.stage.i, Next(writes, checks, s);
    assert forall a <- s.applied :: a.key != writes[i].key;
    OneMoreStands(s, t, t.applied[i]);
  }

  /** Undoing the last standing write leaves one less standing, and is not refused. */
  lemma OneUndone(s: Commit, c: nat, t: Commit)
    requires Standing(s, c) && c > 0
    requires t.applied == s.applied && t.alone == s.alone && t.store == UndoWrite(s.store, s.applied[c - 1]).values
    ensures UndoWrite(s.store, s.applied[c - 1]).ok && Standing(t, c - 1)
  {
    var a, fewer := s.applied[c - 1], c - 1;
    assert StandsAt(s, c, fewer) && a in s.applied;
    forall j | 0 <= j < |s.applied|
      ensures StandsAt(t, fewer, j)
    {
      assert StandsAt(s, c, j);
    }
    forall key | !AppliesKey(t.applied, key)
      ensures Lookup(t.store, key) == Lookup(t.alone, key)
    {
      assert key != a.key;
    }
  }

  lemma SameStands(s: Commit, t: Commit, c: nat)
    requires Standing(s, c) && t == s.(stage := t.stage)
    ensures Standing(t, c)
  {
    forall j | 0 <= j < |s.applied|
      ensures StandsAt(t, c, j)
    {
      assert StandsAt(s, c, j);
    }
  }

  lemma UndoStands(writes: seq<WriteOp>, checks: map<string, nat>, s: Commit)
    requires Inv(writes, checks, s) && s.stage.Undoing?
    ensures Inv(writes, checks, Next(writes, checks, s))
  {
    var c, t := s.stage.c, Next(writes, checks, s);
    if c == 0 {
      SameStands(s, t, 0);
    } else {
      OneUndone(s, c, t);
    }
  }

  lemma NextKeepsInv(writes: seq<WriteOp>, checks: map<string, nat>, s: Commit)
    requires KeysChecked(writes, checks) && Inv(writes, checks, s)
    ensures Inv(writes, checks, Next(writes, checks, s))
  {
    match s.stage
    case Putting(_, _) =>
      if Next(writes, checks, s).stage.Undoing? {
        PutFails(writes, checks, s);
      } else {
        PutStands(writes, checks, s);
      }
    case Undoing(_) => UndoStands(writes, checks, s);
    case Checking(i) =>
      var t := Next(writes, checks, s);
      assert i < |writes| ==> writes[i] in writes;
      assert forall j :: 0 <= j < |s.applied| ==> StandsAt(s, i, j) ==> StandsAt(t, i, j);
    case _ =>
  }

  lemma DisturbedStands(s: Commit, op: StoreOp, c: nat)
    requires Standing(s, c) && forall a <- s.applied :: !Touches(op, a.key)
    ensures Standing(Disturbed(s, op), c)
    ensures forall a <- s.applied :: Lookup(Apply(s.store, op), a.key) == Lookup(s.store, a.key)
  {
    var t := Disturbed(s, op);
    forall a <- s.applied
      ensures Lookup(t.store, a.key) == Lookup(s.store, a.key) && Lookup(t.alone, a.key) == Lookup(s.alone, a.key)
    {
      ApplyFrame(s.store, op, a.key);
      ApplyFrame(s.alone, op, a.key);
    }
    forall i | 0 <= i < |s.applied|
      ensures StandsAt(t, c, i)
    {
      assert StandsAt(s, c, i) && s.applied[i] in s.applied;
    }
    forall key | !AppliesKey(s.applied, key)
      ensures Lookup(t.store, key) == Lookup(t.alone, key)
    {
      ApplyAgrees(s.store, s.alone, op, key);
    }
  }

  lemma DisturbedKeepsInv(writes: seq<WriteOp>, checks: map<string, nat>, s: Commit, op: StoreOp)
    requires Inv(writes, checks, s) && Allowed(writes, s, op)
    ensures Inv(writes, checks, Disturbed(s, op))
  {
    if s.stage.Putting? {
      ApplyIsNewer(s.store, op, writes[s.stage.i].key);
    }
    DisturbedStands(s, op,
      match s.stage
      case Undoing(c) => c
      case Failed => 0
      case _ => |s.applied|);
    assert forall j :: 0 <= j < |s.applied| ==> s.applied[j] in s.applied;
  }

  lemma {:induction false} RunKeepsInv(writes: seq<WriteOp>, checks: map<string, nat>, run: seq<Commit>, i: nat)
    requires KeysChecked(writes, checks) && IsRun(writes, checks, run) && i < |run|
    ensures Inv(writes, checks, run[i])
  {
    if i > 0 {
      RunKeepsInv(writes, checks, run, i - 1);
      assert StepAt(writes, checks, run, i);
      if run[i] != Next(writes, checks, run[i - 1]) {
        var op :| Allowed(writes, run[i - 1], op) && run[i] == Disturbed(run[i - 1], op);
        DisturbedKeepsInv(writes, checks, run[i - 1], op);
      } else {
        NextKeepsInv(writes, checks, run[i - 1]);
      }
    }
  }

  // ---- The theorems ----

  /** A failed commit shows in nothing but versions: each applied key is back at the value and existence
      recorded for it, which is what the others' store holds, created keys are deleted, and every other
      key reads as if the commit had never run. No undo is ever refused. */
  lemma FailedCommitIsInvisible(writes: seq<WriteOp>, checks: map<string, nat>, run: seq<Commit>, i: nat)
    requires KeysChecked(writes, checks) && IsRun(writes, checks, run) && i < |run|
    ensures !run[i].stage.Broken?
    ensures run[i].stage.Failed? ==>
      var s := run[i];
      && (forall a <- s.applied :: Remembers(a, Lookup(s.alone, a.key)) && Lookup(s.store, a.key) == Undone(a))
      && (forall key :: !AppliesKey(s.applied, key) ==> Lookup(s.store, key) == Lookup(s.alone, key))
      && (forall key :: Lookup(s.store, key).value == Lookup(s.alone, key).value)
  {
    RunKeepsInv(writes, checks, run, i);
    var s := run[i];
    if s.stage.Failed? {
      forall a <- s.applied
        ensures Remembers(a, Lookup(s.alone, a.key)) && Lookup(s.store, a.key) == Undone(a)
      {
        var j :| 0 <= j < |s.applied| && s.applied[j] == a;
        assert StandsAt(s, 0, j);
      }
      forall key
        ensures Lookup(s.store, key).value == Lookup(s.alone, key).value
      {
        if a :| a in s.applied && a.key == key {
          assert Lookup(s.store, a.key) == Undone(a);
        }
      }
    }
  }

  /** A successful one adds exactly its writes, each one version above what the others left. */
  lemma CommittedOverOthers(writes: seq<WriteOp>, checks: map<string, nat>, run: seq<Commit>, i: nat)
    requires KeysChecked(writes, checks) && IsRun(writes, checks, run) && i < |run| && run[i].stage.Committed?
    ensures var s := run[i];
      && (forall w <- writes ::
            Lookup(s.store, w.key) == VersionedValue(w.value, Lookup(s.alone, w.key).version + 1, true))
      && (forall key :: !WritesKey(writes, key) ==> Lookup(s.store, key) == Lookup(s.alone, key))
  {
    RunKeepsInv(writes, checks, run, i);
    var s := run[i];
    forall w <- writes
      ensures Lookup(s.store, w.key) == VersionedValue(w.value, Lookup(s.alone, w.key).version + 1, true)
    {
      var j :| 0 <= j < |writes| && writes[j] == w;
      assert StandsAt(s, |writes|, j);
    }
    forall key | !WritesKey(writes, key)
      ensures Lookup(s.store, key) == Lookup(s.alone, key)
    {
      forall a <- s.applied
        ensures a.key != key
      {
        var j :| 0 <= j < |s.applied| && s.applied[j] == a;
        assert writes[j] in writes;
      }
    }
  }

  /** Why others must not remove a key between the look at it and its put. In every state in which the commit
      has looked up an existing key and is about to put it, whatever the writes, the checks and the value: if
      others remove the key and put it as often as it had versions, the put goes through, the record of it does
      not hold what the others left, and undoing it brings back a value that was already replaced. */
  lemma DeleteBreaksAbort(writes: seq<WriteOp>, checks: map<string, nat>, s: Commit, value: string)
    requires KeysChecked(writes, checks) && Inv(writes, checks, s) && s.stage.Putting?
    requires s.stage.seen.version > 0 && s.stage.seen == Lookup(s.store, writes[s.stage.i].key)
    requires value != s.stage.seen.value
    ensures
      var key, seen := writes[s.stage.i].key, s.stage.seen;
      var theirs := Replaced(key, seen.version, value);
      var n := |theirs|;
      var put := Next(writes, checks, s.(store := After(s.store, theirs, n), alone := After(s.alone, theirs, n)));
      && put.stage == Checking(s.stage.i + 1)
      && put.applied == s.applied + [AppliedWrite(key, seen.value, seen.version, true)]
      && Lookup(put.alone, key) == VersionedValue(value, seen.version, true)
      && UndoWrite(put.store, put.applied[|s.applied|]).ok
      && Lookup(UndoWrite(put.store, put.applied[|s.applied|]).values, key).value == seen.value != value
  {
    var key, seen := writes[s.stage.i].key, s.stage.seen;
    NotYetApplied(writes, checks, s);
    DeleteUnpinsValue(s.store, key, value);
    DeleteUnpinsValue(s.alone, key, value);
  }

  /** And why others must not touch an applied key: in every state that is about to undo a write, one put of
      that key by others, whatever the value, makes the undo fail and leaves the commit half undone. */
  lemma PutBreaksAbort(writes: seq<WriteOp>, checks: map<string, nat>, s: Commit, value: string)
    requires Inv(writes, checks, s) && s.stage.Undoing? && s.stage.c > 0
    ensures var a := s.applied[s.stage.c - 1];
      var broken := Next(writes, checks, Disturbed(s, PutOp(a.key, value)));
      broken.stage.Broken? && Lookup(broken.store, a.key).value == value
  {
    assert StandsAt(s, s.stage.c, s.stage.c - 1);
  }

  lemma NotYetApplied(writes: seq<WriteOp>, checks: map<string, nat>, s: Commit)
    requires Inv(writes, checks, s) && s.stage.Putting? && DistinctKeys(writes)
    ensures !AppliesKey(s.applied, writes[s.stage.i].key)
  {
    assert forall a <- s.applied :: a.key != writes[s.stage.i].key;
  }
}
