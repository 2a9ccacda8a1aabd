/** Recovery steps of a scripted task: stored in the task's metadata, and loaded from it after recovery. */
module RecoverySteps {
  import opened Wrappers
  import opened Decimal
  import opened Intents
  import opened LogText
  import opened IndexedFields
  import TaskEvents
  import TaskLogText

  datatype StepKind = ReadStep | WriteStep | SavepointStep | RollbackStep

  /** An intent whose kind and condition are given by their codes. The original casts numbers to these
      enumerations without a check, so a loaded step may hold codes that name no enumerator. */
  datatype StepIntent = StepIntent(
    objectId: string, intentType: int, payload: string, conditionType: int, conditionValue: string)

  datatype KvStep = KvStep(kind: StepKind, objectId: string, objectType: int, intent: StepIntent, savepointId: string)

  predicate IsInt32(n: int) { -0x8000_0000 <= n < 0x8000_0000 }

  /** The cast of a 64-bit number to an enumeration keeps its low 32 bits. */
  function Enumerator(n: int): (code: int)
    ensures IsInt32(code) && (IsInt32(n) ==> code == n)
  {
    (n + 0x8000_0000) % 0x1_0000_0000 - 0x8000_0000
  }

  /** The codes fit their enumerations, as in every step of the original. */
  predicate FitsStep(step: KvStep) {
    IsInt32(step.objectType) && IsInt32(step.intent.intentType) && IsInt32(step.intent.conditionType)
  }

  function KindName(kind: StepKind): string {
    match kind
    case ReadStep => "read"
    case WriteStep => "write"
    case SavepointStep => "savepoint"
    case RollbackStep => "rollback_to_savepoint"
  }

  function KindFromName(name: string): StepKind {
    if name == "write" then WriteStep
    else if name == "savepoint" then SavepointStep
    else if name == "rollback_to_savepoint" then RollbackStep
    else ReadStep
  }

  function ObjectTypeCode(objectType: ObjectType): int {
    match objectType
    case Generic => 0
    case Row => 1
    case Text => 2
    case CandidateResult => 3
  }

  function ConditionCode(kind: ConditionType): int {
    if kind.NoCondition? then 0 else 1
  }

  /** A step as scripts write it, with enumerators that have a name. */
  function NamedStep(
    kind: StepKind, objectId: string, objectType: ObjectType, intent: WriteIntent, savepointId: string): KvStep
  {
    KvStep(kind, objectId, ObjectTypeCode(objectType),
           StepIntent(intent.objectId, TaskEvents.IntentCode(intent.intentType), intent.payload,
                      ConditionCode(intent.condition.kind), intent.condition.expectedValue),
           savepointId)
  }

  // ---- Storing ----

  const STEPS := Family("recovery.step.", '.',
    ["kind", "object_id", "object_type", "intent_type", "payload", "condition_type", "condition_value", "savepoint_id"])

  function StepValues(step: KvStep): seq<string> {
    [KindName(step.kind), step.objectId, IntText(step.objectType), IntText(step.intent.intentType), step.intent.payload,
     IntText(step.intent.conditionType), step.intent.conditionValue, step.savepointId]
  }

  function StepRows(steps: seq<KvStep>): seq<seq<string>> {
    seq(|steps|, i requires 0 <= i < |steps| => StepValues(steps[i]))
  }

  datatype BranchSummary = BranchSummary(branchId: string, summary: string)

  function BranchFields(branches: seq<BranchSummary>): seq<Field> {
    seq(|branches|, i requires 0 <= i < |branches| => Field("branch:" + branches[i].branchId, branches[i].summary))
  }

  function Tail(score: string, summary: string, preferred: string): seq<Field> {
    [Field("recovery.score", score), Field("recovery.summary", summary),
     Field("recovery.preferred_branch_id", preferred)]
  }

  /** The assignments `BuildTaskContext` makes, in order. The score is printed text. */
  function ContextFields(
    branches: seq<BranchSummary>, steps: seq<KvStep>, score: string, summary: string, preferred: string): seq<Field>
  {
    BranchFields(branches)
    + [Field("recovery.step_count", NatText(|steps|))]
    + Block(STEPS, StepRows(steps), |steps|)
    + Tail(score, summary, preferred)
  }

  function TaskMetadata(
    branches: seq<BranchSummary>, steps: seq<KvStep>, score: string, summary: string, preferred: string)
    : map<string, string>
  {
    var fields := ContextFields(branches, steps, score, summary, preferred);
    Collected(fields, |fields|)
  }

  // ---- Loading ----

  function StepOf(v: seq<string>): KvStep
    requires |v| == 8
  {
    KvStep(KindFromName(v[0]), v[1], Enumerator(ToInt64(v[2])),
           StepIntent(v[1], Enumerator(ToInt64(v[3])), v[4], Enumerator(ToInt64(v[5])), v[6]),
           v[7])
  }

  function ValuesAt(metadata: map<string, string>, i: nat): seq<string> {
    seq(8, j requires 0 <= j < 8 => ValueOf(metadata, Key(STEPS, i, STEPS.suffixes[j])))
  }

  function LoadedSteps(metadata: map<string, string>, n: nat): seq<KvStep> {
    seq(n, i requires 0 <= i < n => StepOf(ValuesAt(metadata, i)))
  }

  function LoadSteps(metadata: map<string, string>): seq<KvStep> {
    LoadedSteps(metadata, ToUInt64(ValueOf(metadata, "recovery.step_count")))
  }

  lemma OneMoreLoaded(metadata: map<string, string>, i: nat)
    ensures LoadedSteps(metadata, i + 1) == LoadedSteps(metadata, i) + [StepOf(ValuesAt(metadata, i))]
  {
  }

  method LoadRecoverySteps(metadata: map<string, string>) returns (steps: seq<KvStep>)
    ensures steps == LoadSteps(metadata)
  {
    var n := ToUInt64(ValueOf(metadata, "recovery.step_count"));
    steps := [];
    for i := 0 to n
      invariant steps == LoadedSteps(metadata, i)
    {
      OneMoreLoaded(metadata, i);
      steps := steps + [StepOf(ValuesAt(metadata, i))];
    }
  }

  // ---- The round trip ----

  /** Loading names the object in the intent. */
  function Reloaded(step: KvStep): KvStep {
    step.(intent := step.intent.(objectId := step.objectId))
  }

  lemma KindNameInverts(kind: StepKind)
    ensures KindFromName(KindName(kind)) == kind
  {
  }

  /** Each name stands for its kind of step, and any other name for a read. */
  lemma KindNamesExactly(name: string, kind: StepKind)
    ensures KindFromName(name) == kind <==>
      name == KindName(kind) || (kind.ReadStep? && forall k: StepKind :: name != KindName(k))
  {
    KindNameInverts(kind);
    assert KindName(KindFromName(name)) == name || KindFromName(name) == ReadStep;
    if KindFromName(name) == kind && name != KindName(kind) {
      forall k: StepKind
        ensures name != KindName(k)
      {
        KindNameInverts(k);
      }
    }
  }

  lemma StepDecodes(step: KvStep)
    requires FitsStep(step)
    ensures StepOf(StepValues(step)) == Reloaded(step)
  {
    KindNameInverts(step.kind);
    ToInt64OfIntText(step.objectType);
    ToInt64OfIntText(step.intent.intentType);
    ToInt64OfIntText(step.intent.conditionType);
  }

  /** A step with named enumerators comes back with the same enumerators. */
  lemma NamedStepDecodes(
      kind: StepKind, objectId: string, objectType: ObjectType, intent: WriteIntent, savepointId: string)
    ensures StepOf(StepValues(NamedStep(kind, objectId, objectType, intent, savepointId)))
         == NamedStep(kind, objectId, objectType, intent.(objectId := objectId), savepointId)
  {
    StepDecodes(NamedStep(kind, objectId, objectType, intent, savepointId));
  }

  lemma StepsAreWellFormed()
    ensures IndexedFields.WellFormed(STEPS) && |STEPS.suffixes| == 8
  {
    var s := STEPS.suffixes;
    assert |s[0]| == 4 && |s[1]| == 9 && |s[2]| == 11 && |s[3]| == 11 && |s[4]| == 7 && |s[5]| == 14 && |s[6]| == 15
      && |s[7]| == 12;
    assert s[2][0] == 'o' && s[3][0] == 'i';
  }

  /** The keys that are not about a single step. */
  lemma SingleKeysAreFree(i: nat, suffix: string)
    ensures var key := Key(STEPS, i, suffix);
      key != "recovery.step_count" && key != "recovery.score" && key != "recovery.summary"
      && key != "recovery.preferred_branch_id"
  {
    var key := Key(STEPS, i, suffix);
    assert key[13] == '.' && key[9] == 's' && key[10] == 't';
    assert "recovery.step_count"[13] == '_' && "recovery.score"[10] == 'c';
    assert "recovery.summary"[10] == 'u' && "recovery.preferred_branch_id"[9] == 'p';
  }

  lemma TailIsFree(score: string, summary: string, preferred: string, i: nat, suffix: string)
    ensures Free(Tail(score, summary, preferred), Key(STEPS, i, suffix))
    ensures Free(Tail(score, summary, preferred), "recovery.step_count")
  {
    SingleKeysAreFree(i, suffix);
    assert |"recovery.step_count"| == 19 && |"recovery.score"| == 14 && |"recovery.summary"| == 16;
    assert |"recovery.preferred_branch_id"| == 28;
  }

  lemma StepsKept(
      branches: seq<BranchSummary>, steps: seq<KvStep>, score: string, summary: string, preferred: string, i: nat,
      j: nat)
    requires i < |steps| && j < 8
    ensures Has(
      ContextFields(branches, steps, score, summary, preferred), Key(STEPS, i, STEPS.suffixes[j]),
      StepValues(steps[i])[j])
  {
    var start, rows := BranchFields(branches) + [Field("recovery.step_count", NatText(|steps|))], StepRows(steps);
    StepsAreWellFormed();
    BlockHas(start, STEPS, rows, |steps|, i, j);
    TailIsFree(score, summary, preferred, i, STEPS.suffixes[j]);
    HasKept(
      start + Block(STEPS, rows, |steps|), Tail(score, summary, preferred), Key(STEPS, i, STEPS.suffixes[j]),
      rows[i][j]);
  }

  lemma CountKept(branches: seq<BranchSummary>, steps: seq<KvStep>, score: string, summary: string, preferred: string)
    ensures Has(ContextFields(branches, steps, score, summary, preferred), "recovery.step_count", NatText(|steps|))
  {
    StepsAreWellFormed();
    forall i: nat, suffix: string
      ensures Key(STEPS, i, suffix) != "recovery.step_count"
    {
      SingleKeysAreFree(i, suffix);
    }
    BlockIsFree(STEPS, StepRows(steps), |steps|, "recovery.step_count");
    TailIsFree(score, summary, preferred, 0, "");
    HasThrough(BranchFields(branches), Field("recovery.step_count", NatText(|steps|)),
               Block(STEPS, StepRows(steps), |steps|), Tail(score, summary, preferred));
  }

  /** What restored metadata needs in order to give the steps back. */
  ghost predicate Holds(metadata: map<string, string>, steps: seq<KvStep>) {
    && ValueOf(metadata, "recovery.step_count") == NatText(|steps|)
    && forall i :: 0 <= i < |steps| ==> HoldsAt(metadata, steps, i)
  }

  ghost predicate HoldsAt(metadata: map<string, string>, steps: seq<KvStep>, i: nat)
    requires i < |steps|
  {
    ValuesAt(metadata, i) == StepValues(steps[i])
  }

  lemma HeldStepsLoad(metadata: map<string, string>, steps: seq<KvStep>)
    requires Holds(metadata, steps) && |steps| <= UINT64_MAX && forall step <- steps :: FitsStep(step)
    ensures LoadSteps(metadata) == ReloadedSteps(steps)
  {
    ToUInt64OfNatText(|steps|);
    forall i | 0 <= i < |steps|
      ensures LoadSteps(metadata)[i] == Reloaded(steps[i])
    {
      assert HoldsAt(metadata, steps, i) && steps[i] in steps;
      StepDecodes(steps[i]);
    }
  }

  /** Metadata that agrees with the task's on every key that is not empty holds the steps. */
  lemma AgreeingHolds(
      branches: seq<BranchSummary>, steps: seq<KvStep>, score: string, summary: string, preferred: string,
      restored: map<string, string>)
    requires var metadata := TaskMetadata(branches, steps, score, summary, preferred);
      forall key <- metadata :: key != "" ==> key in restored && restored[key] == metadata[key]
    ensures Holds(restored, steps)
  {
    CountKept(branches, steps, score, summary, preferred);
    forall i | 0 <= i < |steps|
      ensures HoldsAt(restored, steps, i)
    {
      forall j | 0 <= j < 8
        ensures ValuesAt(restored, i)[j] == StepValues(steps[i])[j]
      {
        StepsKept(branches, steps, score, summary, preferred, i, j);
      }
    }
  }

  // ---- What recovery adds ----

  /** The entries that recovery itself puts into the metadata of a restored task. */
  function RecoveryNotes(
    log: string, action: string, reason: string, branchId: string, savepointId: string, command: string,
    summary: string)
    : seq<Field>
  {
    [Field("source_log", log), Field("recovery_action", action), Field("recovery_reason", reason),
     Field("resume_branch_id", branchId), Field("resume_savepoint_id", savepointId),
     Field("recovery_command", command), Field("recovery_summary", summary)]
  }

  function Annotated(metadata: map<string, string>, notes: seq<Field>, n: nat): map<string, string>
    requires n <= |notes|
  {
    if n == 0 then metadata else Annotated(metadata, notes, n - 1)[notes[n - 1].key := notes[n - 1].value]
  }

  lemma {:induction false} NotesLeave(metadata: map<string, string>, notes: seq<Field>, n: nat, key: string)
    requires n <= |notes| && Free(notes, key)
    ensures ValueOf(Annotated(metadata, notes, n), key) == ValueOf(metadata, key)
  {
    if n > 0 {
      NotesLeave(metadata, notes, n - 1, key);
      assert notes[n - 1] in notes;
    }
  }

  ghost predicate IsNotes(notes: seq<Field>) {
    exists log, action, reason, branchId, savepointId, command, summary ::
      notes == RecoveryNotes(log, action, reason, branchId, savepointId, command, summary)
  }

  /** The shape of the keys that are about steps. */
  predicate StepShaped(key: string) { |key| > 13 && key[2] == 'c' && key[8] == '.' }

  /** None of the notes is about a step. */
  lemma NotesAreFree(notes: seq<Field>)
    requires IsNotes(notes)
    ensures forall key | StepShaped(key) :: Free(notes, key)
  {
    assert "source_log"[2] == 'u' && "resume_branch_id"[2] == 's' && "resume_savepoint_id"[2] == 's';
    assert "recovery_action"[8] == '_' && "recovery_reason"[8] == '_';
    assert "recovery_command"[8] == '_' && "recovery_summary"[8] == '_';
  }

  lemma AnnotatedHolds(metadata: map<string, string>, steps: seq<KvStep>, notes: seq<Field>)
    requires Holds(metadata, steps) && forall key | StepShaped(key) :: Free(notes, key)
    ensures Holds(Annotated(metadata, notes, |notes|), steps)
  {
    var annotated := Annotated(metadata, notes, |notes|);
    assert |"recovery.step_count"| == 19 && "recovery.step_count"[2] == 'c' && "recovery.step_count"[8] == '.';
    NotesLeave(metadata, notes, |notes|, "recovery.step_count");
    forall i | 0 <= i < |steps|
      ensures HoldsAt(annotated, steps, i)
    {
      assert HoldsAt(metadata, steps, i);
      forall j | 0 <= j < 8
        ensures ValuesAt(annotated, i)[j] == ValuesAt(metadata, i)[j]
      {
        StepKeyShape(i, STEPS.suffixes[j]);
        NotesLeave(metadata, notes, |notes|, Key(STEPS, i, STEPS.suffixes[j]));
      }
      assert ValuesAt(annotated, i) == ValuesAt(metadata, i);
    }
  }

  lemma StepKeyShape(i: nat, suffix: string)
    ensures StepShaped(Key(STEPS, i, suffix))
  {
    assert |STEPS.prefix| == 14 && STEPS.prefix[2] == 'c' && STEPS.prefix[8] == '.';
    assert Key(STEPS, i, suffix)[..14] == STEPS.prefix;
  }

  /** The steps that recovery finds in the text of a log, once it has added its own entries. */
  function StepsFromLog(text: string, notes: seq<Field>): Option<seq<KvStep>> {
    match TaskLogText.ParseTaskLog(text)
    case None => None
    case Some(log) => Some(LoadSteps(Annotated(TaskLogText.RestoredContext(log.metadata).metadata, notes, |notes|)))
  }

  function ReloadedSteps(steps: seq<KvStep>): seq<KvStep> {
    seq(|steps|, i requires 0 <= i < |steps| => Reloaded(steps[i]))
  }

  /** Recovery steps survive: put a script's steps into the task's metadata, write the event log of the
      session, parse it, restore the task, let recovery add its own entries, and load the steps; they are
      the steps of the script, whatever text they hold, except that each intent now names the object of its
      step. */
  lemma RecoveryStepsSurvive(
      branches: seq<BranchSummary>, steps: seq<KvStep>, score: string, summary: string, preferred: string,
      h: TaskLogText.Header, events: seq<TaskEvents.TaskEvent>, notes: seq<Field>)
    requires TaskLogText.FitsHeader(h) && |steps| <= UINT64_MAX && forall e <- events :: TaskLogText.FitsEvent(e)
    requires forall step <- steps :: FitsStep(step)
    requires TaskLogText.Lists(h.pairs, TaskMetadata(branches, steps, score, summary, preferred))
    requires IsNotes(notes)
    ensures StepsFromLog(TaskLogText.PrintTaskLog(h, events), notes) == Some(ReloadedSteps(steps))
  {
    var task := TaskMetadata(branches, steps, score, summary, preferred);
    TaskLogText.TaskLogRoundTrip(h, events, task);
    AgreeingHolds(branches, steps, score, summary, preferred, TaskLogText.Keyed(task));
    NotesAreFree(notes);
    AnnotatedHolds(TaskLogText.Keyed(task), steps, notes);
    HeldStepsLoad(Annotated(TaskLogText.Keyed(task), notes, |notes|), steps);
  }
}
