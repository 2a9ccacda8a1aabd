/** How a buffered write is resolved against the store at commit time, and what that means for the
    intents of the branch. */
module PolicyDispatcher {
  import opened Wrappers
  import opened Decimal
  import opened Intents
  import opened Branches
  import opened BranchFold

  datatype ConcurrencyClass = ReadOnly | Strict | CommutativeRebase | ConditionalRebase

  function Classify(intentType: IntentType): ConcurrencyClass {
    match intentType
    case ReadIntent => ReadOnly
    case Overwrite => Strict
    case Append => CommutativeRebase
    case Delta => CommutativeRebase
    case Cas => ConditionalRebase
  }

  predicate UsesSemanticRebase(intentType: IntentType) {
    Classify(intentType) != Strict && Classify(intentType) != ReadOnly
  }

  datatype ResolveResult =
    | Store(value: string)
    | NoWrite
    | Failed(reason: string)

  predicate StartsWith(s: string, prefix: string) {
    |s| >= |prefix| && s[..|prefix|] == prefix
  }

  function ResolveDelta(e: CacheEntry, intent: WriteIntent, current: string): ResolveResult {
    match (ParseInt(current), ParseInt(e.baseValue), ParseInt(e.currentValue))
    case (Some(now), Some(base), Some(branch)) => Store(IntText(now + (branch - base)))
    case _ =>
      match (ParseInt(current), ParseInt(intent.payload))
      case (Some(now), Some(d)) => Store(IntText(now + d))
      case _ => Failed("delta rebase requires integer base/current values")
  }

  /** The value to write for a buffered entry whose latest intent is `intent`, when the store now holds
      `current`. */
  function ResolveWrite(e: CacheEntry, intent: WriteIntent, current: string): ResolveResult {
    match intent.intentType
    case ReadIntent => NoWrite
    case Overwrite => Store(e.currentValue)
    case Append =>
      if StartsWith(e.currentValue, e.baseValue) then Store(current + e.currentValue[|e.baseValue|..])
      else Store(current + intent.payload)
    case Delta => ResolveDelta(e, intent, current)
    case Cas =>
      if intent.condition.kind == ValueEquals && current != intent.condition.expectedValue then
        Failed("cas condition no longer holds")
      else
        Store(e.currentValue)
  }

  // ---- Rebasing appends ----

  predicate AllOfType(intents: seq<WriteIntent>, objectId: string, intentType: IntentType) {
    forall intent <- intents :: intent.objectId == objectId ==> intent.intentType == intentType
  }

  /** The payloads for one object, in order. */
  function Payloads(intents: seq<WriteIntent>, objectId: string): string {
    if intents == [] then ""
    else
      var last := intents[|intents| - 1];
      Payloads(intents[..|intents| - 1], objectId) + if last.objectId == objectId then last.payload else ""
  }

  lemma {:induction false} FoldOfAppends(base: string, intents: seq<WriteIntent>, objectId: string)
    requires AllOfType(intents, objectId, Append)
    ensures Fold(base, intents, objectId) == base + Payloads(intents, objectId)
  {
    if intents != [] {
      assert intents[|intents| - 1] in intents;
      assert forall intent <- intents[..|intents| - 1] :: intent in intents;
      FoldOfAppends(base, intents[..|intents| - 1], objectId);
    }
  }

  lemma LatestOfType(intents: seq<WriteIntent>, objectId: string, intentType: IntentType)
    requires AllOfType(intents, objectId, intentType) && Mentions(intents, objectId)
    ensures Latest(intents, objectId).value.intentType == intentType
  {
  }

  /** Rebasing an append-only object: whatever the store holds by now, followed by every surviving
      payload in order. */
  lemma RebaseOfAppends(b: BranchState, objectId: string, current: string)
    requires BranchInv(b) && objectId in b.buffer.entries && AllOfType(b.intents, objectId, Append)
    ensures Mentions(b.intents, objectId)
    ensures ResolveWrite(b.buffer.entries[objectId], Latest(b.intents, objectId).value, current)
         == Store(current + Payloads(b.intents, objectId))
  {
    var e := b.buffer.entries[objectId];
    assert FoldedAt(e, b.intents, objectId);
    LatestOfType(b.intents, objectId, Append);
    FoldOfAppends(e.baseValue, b.intents, objectId);
    assert e.currentValue[|e.baseValue|..] == Payloads(b.intents, objectId);
  }

  // ---- Rebasing deltas ----

  /** A delta that is not an integer is accepted and ignored. */
  function DeltaOf(intent: WriteIntent): int {
    match ParseInt(intent.payload)
    case Some(d) => d
    case None => 0
  }

  /** The sum of the deltas for one object. */
  function NetDelta(intents: seq<WriteIntent>, objectId: string): int {
    if intents == [] then 0
    else
      var last := intents[|intents| - 1];
      NetDelta(intents[..|intents| - 1], objectId) + if last.objectId == objectId then DeltaOf(last) else 0
  }

  /** No partial sum leaves the 64-bit range. */
  predicate StaysInt64(start: int, intents: seq<WriteIntent>, objectId: string) {
    && IsInt64(start + NetDelta(intents, objectId))
    && (intents != [] ==> StaysInt64(start, intents[..|intents| - 1], objectId))
  }

  lemma DeltaApplied(before: string, base: string, intent: WriteIntent, n: int)
    requires intent.intentType.Delta? && ParseInt(before) == Some(n) && IsInt64(n + DeltaOf(intent))
    ensures ParseInt(Applied(before, base, intent)) == Some(n + DeltaOf(intent))
  {
    ParsePrintedInt(n + DeltaOf(intent));
  }

  lemma {:induction false} FoldOfDeltas(base: string, intents: seq<WriteIntent>, objectId: string)
    requires AllOfType(intents, objectId, Delta)
    requires ParseInt(base).Some? && StaysInt64(ParseInt(base).value, intents, objectId)
    ensures ParseInt(Fold(base, intents, objectId)) == Some(ParseInt(base).value + NetDelta(intents, objectId))
  {
    if intents != [] {
      var last, init := intents[|intents| - 1], intents[..|intents| - 1];
      assert last in intents && forall intent <- init :: intent in intents;
      FoldOfDeltas(base, init, objectId);
      if last.objectId == objectId {
        DeltaApplied(Fold(base, init, objectId), base, last, ParseInt(base).value + NetDelta(init, objectId));
      }
    }
  }

  /** Without an integer base the buffer ignores deltas. */
  lemma {:induction false} FoldOfDeltasOnText(base: string, intents: seq<WriteIntent>, objectId: string)
    requires AllOfType(intents, objectId, Delta) && ParseInt(base).None?
    ensures Fold(base, intents, objectId) == base
  {
    if intents != [] {
      assert intents[|intents| - 1] in intents;
      assert forall intent <- intents[..|intents| - 1] :: intent in intents;
      FoldOfDeltasOnText(base, intents[..|intents| - 1], objectId);
    }
  }

  /** Committing now would add `d` to the integer in the store. */
  predicate RebasesTo(b: BranchState, objectId: string, current: string, d: int)
    requires objectId in b.buffer.entries && Mentions(b.intents, objectId) && ParseInt(current).Some?
  {
    ResolveWrite(b.buffer.entries[objectId], Latest(b.intents, objectId).value, current)
      == Store(IntText(ParseInt(current).value + d))
  }

  lemma DeltaOverBase(e: CacheEntry, intent: WriteIntent, current: string, net: int)
    requires intent.intentType.Delta? && ParseInt(current).Some? && ParseInt(e.baseValue).Some?
    requires ParseInt(e.currentValue) == Some(ParseInt(e.baseValue).value + net)
    ensures ResolveWrite(e, intent, current) == Store(IntText(ParseInt(current).value + net))
  {
  }

  lemma BufferedNet(e: CacheEntry, intents: seq<WriteIntent>, objectId: string)
    requires FoldedAt(e, intents, objectId) && AllOfType(intents, objectId, Delta)
    requires ParseInt(e.baseValue).Some? && StaysInt64(ParseInt(e.baseValue).value, intents, objectId)
    ensures ParseInt(e.currentValue) == Some(ParseInt(e.baseValue).value + NetDelta(intents, objectId))
  {
    FoldOfDeltas(e.baseValue, intents, objectId);
  }

  lemma BufferedIsFolded(b: BranchState, objectId: string, intentType: IntentType)
    requires BranchInv(b) && objectId in b.buffer.entries && AllOfType(b.intents, objectId, intentType)
    ensures FoldedAt(b.buffer.entries[objectId], b.intents, objectId) && Mentions(b.intents, objectId)
    ensures Latest(b.intents, objectId).value.intentType == intentType
  {
    assert FoldedAt(b.buffer.entries[objectId], b.intents, objectId);
    LatestOfType(b.intents, objectId, intentType);
  }

  /** Rebasing a delta-only integer object: the integer the store holds by now plus the sum of the
      surviving deltas. */
  lemma RebaseOfDeltas(b: BranchState, objectId: string, current: string)
    requires BranchInv(b) && objectId in b.buffer.entries && AllOfType(b.intents, objectId, Delta)
    requires var base := ParseInt(b.buffer.entries[objectId].baseValue);
      base.Some? && StaysInt64(base.value, b.intents, objectId)
    requires ParseInt(current).Some?
    ensures Mentions(b.intents, objectId)
    ensures RebasesTo(b, objectId, current, NetDelta(b.intents, objectId))
  {
    BufferedIsFolded(b, objectId, Delta);
    BufferedNet(b.buffer.entries[objectId], b.intents, objectId);
    DeltaOverBase(
      b.buffer.entries[objectId], Latest(b.intents, objectId).value, current, NetDelta(b.intents, objectId));
  }

  lemma IntTextInjective(m: int, n: int)
    requires IntText(m) == IntText(n)
    ensures m == n
  {
    var s, t := NatText(if m < 0 then -m else m), NatText(if n < 0 then -n else n);
    assert IsDigit(s[0]) && IsDigit(t[0]) by { assert s[0] in s && t[0] in t; }
    assert ("-" + s)[1..] == s && ("-" + t)[1..] == t;
    NatTextInjective(if m < 0 then -m else m, if n < 0 then -n else n);
  }

  lemma DeltaWithoutBase(e: CacheEntry, intent: WriteIntent, current: string)
    requires intent.intentType.Delta? && ParseInt(current).Some? && ParseInt(e.baseValue).None?
    ensures ResolveWrite(e, intent, current) ==
      if ParseInt(intent.payload).Some? then Store(IntText(ParseInt(current).value + DeltaOf(intent)))
      else Failed("delta rebase requires integer base/current values")
  {
  }

  /** On an object whose base was not an integer (an absent one, say) only the last delta survives a
      rebase, and the rebase fails if that delta is not an integer. */
  lemma DeltaRebaseOnText(b: BranchState, objectId: string, current: string)
    requires BranchInv(b) && objectId in b.buffer.entries && AllOfType(b.intents, objectId, Delta)
    requires ParseInt(b.buffer.entries[objectId].baseValue).None? && ParseInt(current).Some?
    ensures Mentions(b.intents, objectId)
    ensures var last := Latest(b.intents, objectId).value;
      if ParseInt(last.payload).Some? then RebasesTo(b, objectId, current, DeltaOf(last))
      else ResolveWrite(b.buffer.entries[objectId], last, current).Failed?
  {
    assert FoldedAt(b.buffer.entries[objectId], b.intents, objectId);
    LatestOfType(b.intents, objectId, Delta);
    DeltaWithoutBase(b.buffer.entries[objectId], Latest(b.intents, objectId).value, current);
  }

  /** So the rebase adds the net delta exactly when the base was an integer, or the last delta is one and
      the earlier deltas cancel out. */
  lemma DeltaRebaseExact(b: BranchState, objectId: string, current: string)
    requires BranchInv(b) && objectId in b.buffer.entries && AllOfType(b.intents, objectId, Delta)
    requires var base := ParseInt(b.buffer.entries[objectId].baseValue);
      base.Some? ==> StaysInt64(base.value, b.intents, objectId)
    requires ParseInt(current).Some?
    ensures Mentions(b.intents, objectId)
    ensures RebasesTo(b, objectId, current, NetDelta(b.intents, objectId)) <==>
      || ParseInt(b.buffer.entries[objectId].baseValue).Some?
      || (&& ParseInt(Latest(b.intents, objectId).value.payload).Some?
          && NetDelta(b.intents, objectId) == DeltaOf(Latest(b.intents, objectId).value))
  {
    assert FoldedAt(b.buffer.entries[objectId], b.intents, objectId);
    var last := Latest(b.intents, objectId).value;
    if ParseInt(b.buffer.entries[objectId].baseValue).Some? {
      RebaseOfDeltas(b, objectId, current);
    } else {
      DeltaRebaseOnText(b, objectId, current);
      if ParseInt(last.payload).Some? {
        RebasesToOnlyOne(b, objectId, current, DeltaOf(last), NetDelta(b.intents, objectId));
      }
    }
  }

  lemma RebasesToOnlyOne(b: BranchState, objectId: string, current: string, d: int, d': int)
    requires objectId in b.buffer.entries && Mentions(b.intents, objectId) && ParseInt(current).Some?
    requires RebasesTo(b, objectId, current, d)
    ensures RebasesTo(b, objectId, current, d') <==> d == d'
  {
    if RebasesTo(b, objectId, current, d') {
      IntTextInjective(ParseInt(current).value + d, ParseInt(current).value + d');
    }
  }
}
