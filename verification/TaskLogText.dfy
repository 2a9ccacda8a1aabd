/** The text of a task event log: what it says about the session, and the recorded events. */
module TaskLogText {
  import opened Wrappers
  import opened Decimal
  import opened TextCodec
  import opened LogText
  import opened IndexedFields
  import opened KvStore
  import opened TaskEvents
  import TaskRecovery

  const FORMAT := Format("DAS_TASK_EVENT_LOG_V1", "[events]")

  // ---- Events ----

  function TypeName(eventType: EventType): string {
    match eventType
    case SubmitTask => "SUBMIT_TASK"
    case CreateBranch => "CREATE_BRANCH"
    case ReadEvent => "READ"
    case WriteEvent => "WRITE"
    case SavepointEvent => "SAVEPOINT"
    case RollbackEvent => "ROLLBACK_TO_SAVEPOINT"
    case StageEvent => "STAGE_BRANCH"
    case CommitAttempt => "COMMIT_ATTEMPT"
    case CommitTask => "COMMIT_TASK"
    case AbortTask => "ABORT_TASK"
  }

  function TypeFromName(name: string): EventType {
    if name == "SUBMIT_TASK" then SubmitTask
    else if name == "CREATE_BRANCH" then CreateBranch
    else if name == "READ" then ReadEvent
    else if name == "WRITE" then WriteEvent
    else if name == "SAVEPOINT" then SavepointEvent
    else if name == "ROLLBACK_TO_SAVEPOINT" then RollbackEvent
    else if name == "STAGE_BRANCH" then StageEvent
    else if name == "COMMIT_ATTEMPT" then CommitAttempt
    else if name == "COMMIT_TASK" then CommitTask
    else if name == "ABORT_TASK" then AbortTask
    else SubmitTask
  }

  function EventFields(e: TaskEvent): seq<string> {
    [NatText(e.number), TypeName(e.eventType), Escape(e.branchId), Escape(e.objectId), IntText(e.numericValue),
     Escape(e.detail)]
  }

  function EventRow(e: TaskEvent): string {
    Joined(EventFields(e))
  }

  function EventOf(f: seq<string>): TaskEvent
    requires |f| == 6
  {
    TaskEvent(ToUInt64(f[0]), TypeFromName(f[1]), Unescape(f[2]), Unescape(f[3]), Unescape(f[5]), ToInt64(f[4]))
  }

  /** A row must have exactly six fields; any of them may be empty. */
  function ParseEvent(row: string): Option<TaskEvent> {
    if |Fields(row)| != 6 then None else Some(EventOf(Fields(row)))
  }

  predicate FitsEvent(e: TaskEvent) {
    e.number <= UINT64_MAX && IsInt64(e.numericValue)
  }

  lemma TypeNameInverts(eventType: EventType)
    ensures TypeFromName(TypeName(eventType)) == eventType
  {
    assert |"SUBMIT_TASK"| == |"COMMIT_TASK"| == 11 && "SUBMIT_TASK"[0] == 'S' && "COMMIT_TASK"[0] == 'C';
    assert |"CREATE_BRANCH"| == 13 && |"READ"| == 4 && |"WRITE"| == 5 && |"SAVEPOINT"| == 9 && |"STAGE_BRANCH"| == 12;
    assert |"ROLLBACK_TO_SAVEPOINT"| == 21 && |"COMMIT_ATTEMPT"| == 14 && |"ABORT_TASK"| == 10;
  }

  lemma OtherTypeIsSubmit(name: string)
    ensures TypeName(TypeFromName(name)) == name || TypeFromName(name) == SubmitTask
  {
  }

  /** Each name stands for its type of event, and any other name for a submission. */
  lemma TypeNamesExactly(name: string, eventType: EventType)
    ensures TypeFromName(name) == eventType <==>
      name == TypeName(eventType) || (eventType.SubmitTask? && forall t: EventType :: name != TypeName(t))
  {
    OtherTypeIsSubmit(name);
    TypeNameInverts(eventType);
    if TypeFromName(name) == eventType && name != TypeName(eventType) {
      forall t: EventType
        ensures name != TypeName(t)
      {
        TypeNameInverts(t);
      }
    }
  }

  lemma SessionNamesArePlain()
    ensures Plain("SUBMIT_TASK") && Plain("CREATE_BRANCH") && Plain("COMMIT_ATTEMPT") && Plain("COMMIT_TASK")
    ensures Plain("ABORT_TASK")
  {
  }

  lemma BranchNamesArePlain()
    ensures Plain("READ") && Plain("WRITE") && Plain("SAVEPOINT") && Plain("ROLLBACK_TO_SAVEPOINT")
      && Plain("STAGE_BRANCH")
  {
  }

  lemma TypeNameIsPlain(eventType: EventType)
    ensures Plain(TypeName(eventType))
  {
    SessionNamesArePlain();
    BranchNamesArePlain();
  }

  lemma EventDecodes(e: TaskEvent)
    requires FitsEvent(e)
    ensures EventOf(EventFields(e)) == e
  {
    ToUInt64OfNatText(e.number);
    TypeNameInverts(e.eventType);
    UnescapeInvertsEscape(e.branchId);
    UnescapeInvertsEscape(e.objectId);
    UnescapeInvertsEscape(e.detail);
    ToInt64OfIntText(e.numericValue);
  }

  lemma EventIsPlain(e: TaskEvent)
    ensures forall field <- EventFields(e) :: Plain(field)
  {
    DigitsArePlain(e.number);
    TypeNameIsPlain(e.eventType);
    EscapedIsPlain(e.branchId);
    EscapedIsPlain(e.objectId);
    EscapedIsPlain(e.detail);
    DigitsArePlain(if e.numericValue < 0 then -e.numericValue else e.numericValue);
  }

  lemma PlainFieldsRoundTrip(fields: seq<string>)
    requires |fields| == 6 && forall field <- fields :: Plain(field)
    ensures ParseEvent(Joined(fields)) == Some(EventOf(fields)) && PrintableRow(FORMAT, Joined(fields))
  {
    FieldsOfJoined(fields);
    RowPrintable(FORMAT, fields);
  }

  lemma EventRoundTrip(e: TaskEvent)
    requires FitsEvent(e)
    ensures ParseEvent(EventRow(e)) == Some(e) && PrintableRow(FORMAT, EventRow(e))
  {
    EventIsPlain(e);
    EventDecodes(e);
    PlainFieldsRoundTrip(EventFields(e));
  }

  function EventRows(events: seq<TaskEvent>): seq<string> {
    seq(|events|, i requires 0 <= i < |events| => EventRow(events[i]))
  }

  function ParseEvents(rows: seq<string>): Option<seq<TaskEvent>> {
    AllParsed(seq(|rows|, i requires 0 <= i < |rows| => ParseEvent(rows[i])), 0, [])
  }

  lemma EventsRoundTrip(events: seq<TaskEvent>)
    requires forall e <- events :: FitsEvent(e)
    ensures ParseEvents(EventRows(events)) == Some(events)
    ensures forall row <- EventRows(events) :: PrintableRow(FORMAT, row)
  {
    var rows := EventRows(events);
    var parses := seq(|rows|, i requires 0 <= i < |rows| => ParseEvent(rows[i]));
    forall i | 0 <= i < |rows|
      ensures parses[i] == Some(events[i]) && PrintableRow(FORMAT, rows[i])
    {
      assert events[i] in events;
      EventRoundTrip(events[i]);
    }
    AllParse(parses, events, 0);
  }

  // ---- The header ----

  datatype ObjectReference = ObjectReference(objectId: string, role: string)

  const INPUTS := Family("input_object_", '_', ["id", "role"])
  const OUTPUTS := Family("output_object_", '_', ["id", "role"])
  const METADATA := Family("task_metadata_", '_', ["key", "value"])

  /** What the log says about the session besides its events. `pairs` is the task's metadata as a list, in
      whatever order the hash map yields it; `phase` is the number of the task phase. */
  datatype Header = Header(
    taskId: string, txnId: string, workloadName: string, plannerId: string,
    inputs: seq<ObjectReference>, outputs: seq<ObjectReference>, pairs: seq<Field>,
    phase: nat, commitAttempts: nat, committed: bool)

  ghost predicate Lists(pairs: seq<Field>, metadata: map<string, string>) {
    && (forall i, j :: 0 <= i < j < |pairs| ==> pairs[i].key != pairs[j].key)
    && (forall p <- pairs :: p.key in metadata && metadata[p.key] == p.value)
    && (forall key <- metadata :: Field(key, metadata[key]) in pairs)
  }

  function ObjectRows(objects: seq<ObjectReference>): (rows: seq<seq<string>>)
    ensures |rows| == |objects| && forall row <- rows :: |row| == 2
  {
    seq(|objects|, i requires 0 <= i < |objects| => [Escape(objects[i].objectId), Escape(objects[i].role)])
  }

  function PairRows(pairs: seq<Field>): (rows: seq<seq<string>>)
    ensures |rows| == |pairs| && forall row <- rows :: |row| == 2
  {
    seq(|pairs|, i requires 0 <= i < |pairs| => [Escape(pairs[i].key), Escape(pairs[i].value)])
  }

  /** The lines before the object lists. */
  function Names(h: Header): seq<Field> {
    [Field("task_id", Escape(h.taskId)), Field("txn_id", Escape(h.txnId)),
     Field("workload_name", Escape(h.workloadName)), Field("planner_id", Escape(h.plannerId))]
  }

  /** The lines after the metadata, as text. */
  function Flags(phase: string, attempts: string, committed: string, size: string): seq<Field> {
    [Field("task_phase", phase), Field("commit_attempts", attempts), Field("committed", committed),
     Field("event_count", size)]
  }

  function FlagsOf(h: Header, size: nat): seq<Field> {
    Flags(NatText(h.phase), NatText(h.commitAttempts), if h.committed then "1" else "0", NatText(size))
  }

  /** All `key=value` lines of the log. */
  function LogFields(h: Header, size: nat): seq<Field> {
    Names(h) + Counted(INPUTS, ObjectRows(h.inputs)) + Counted(OUTPUTS, ObjectRows(h.outputs))
    + Counted(METADATA, PairRows(h.pairs)) + FlagsOf(h, size)
  }

  function PrintTaskLog(h: Header, events: seq<TaskEvent>): string {
    PrintLog(FORMAT, LogFields(h, |events|), EventRows(events))
  }

  datatype TaskLog = TaskLog(metadata: map<string, string>, events: seq<TaskEvent>)

  /** The parsed log; its header values are still escaped. */
  function ParseTaskLog(text: string): Option<TaskLog> {
    match ParseLog(FORMAT, text)
    case None => None
    case Some(log) =>
      match ParseEvents(log.rows)
      case None => None
      case Some(events) => Some(TaskLog(log.metadata, events))
  }

  method ReadTaskLog(text: string) returns (parsed: Option<TaskLog>)
    ensures parsed == ParseTaskLog(text)
  {
    var log := ReadLog(FORMAT, Lines(text));
    if log.None? {
      return None;
    }
    var rows, events := log.value.rows, [];
    ghost var parses := seq(|rows|, i requires 0 <= i < |rows| => ParseEvent(rows[i]));
    for i := 0 to |rows|
      invariant AllParsed(parses, i, events) == AllParsed(parses, 0, [])
    {
      var e := ParseEvent(rows[i]);
      if e.None? {
        return None;
      }
      events := events + [e.value];
    }
    parsed := Some(TaskLog(log.value.metadata, events));
  }

  // ---- Restoring the task ----

  /** The value of a header line; nothing if there is no such line. */
  function MetadataValue(metadata: map<string, string>, key: string): string {
    Unescape(ValueOf(metadata, key))
  }

  function MetadataSize(metadata: map<string, string>, fam: Family): nat {
    ToUInt64(MetadataValue(metadata, CountKey(fam)))
  }

  /** The objects among the first `n` of a family; those without an id are dropped. */
  function RestoredObjects(metadata: map<string, string>, fam: Family, n: nat): seq<ObjectReference> {
    if n == 0 then []
    else
      var id := MetadataValue(metadata, Key(fam, n - 1, "id"));
      RestoredObjects(metadata, fam, n - 1)
        + if id == "" then [] else [ObjectReference(id, MetadataValue(metadata, Key(fam, n - 1, "role")))]
  }

  /** The task metadata among the first `n` pairs; those without a key are dropped. */
  function RestoredPairs(metadata: map<string, string>, n: nat): map<string, string> {
    if n == 0 then map[]
    else
      var before, key := RestoredPairs(metadata, n - 1), MetadataValue(metadata, Key(METADATA, n - 1, "key"));
      if key == "" then before else before[key := MetadataValue(metadata, Key(METADATA, n - 1, "value"))]
  }

  datatype TaskContext = TaskContext(
    inputs: seq<ObjectReference>, outputs: seq<ObjectReference>, metadata: map<string, string>)

  function RestoredContext(metadata: map<string, string>): TaskContext {
    TaskContext(
      RestoredObjects(metadata, INPUTS, MetadataSize(metadata, INPUTS)),
      RestoredObjects(metadata, OUTPUTS, MetadataSize(metadata, OUTPUTS)),
      RestoredPairs(metadata, MetadataSize(metadata, METADATA)))
  }

  method RestoreObjects(metadata: map<string, string>, fam: Family) returns (objects: seq<ObjectReference>)
    ensures objects == RestoredObjects(metadata, fam, MetadataSize(metadata, fam))
  {
    objects := [];
    for i := 0 to MetadataSize(metadata, fam)
      invariant objects == RestoredObjects(metadata, fam, i)
    {
      var id := UnescapeText(ValueOf(metadata, Key(fam, i, "id")));
      if id == "" {
        continue;
      }
      var role := UnescapeText(ValueOf(metadata, Key(fam, i, "role")));
      objects := objects + [ObjectReference(id, role)];
    }
  }

  method RestoreTaskContext(metadata: map<string, string>) returns (task: TaskContext)
    ensures task == RestoredContext(metadata)
  {
    var inputs := RestoreObjects(metadata, INPUTS);
    var outputs := RestoreObjects(metadata, OUTPUTS);
    var restored: map<string, string> := map[];
    for i := 0 to MetadataSize(metadata, METADATA)
      invariant restored == RestoredPairs(metadata, i)
    {
      var key := UnescapeText(ValueOf(metadata, Key(METADATA, i, "key")));
      if key == "" {
        continue;
      }
      var value := UnescapeText(ValueOf(metadata, Key(METADATA, i, "value")));
      restored := restored[key := value];
    }
    task := TaskContext(inputs, outputs, restored);
  }

  // ---- What the map keeps of the header ----

  lemma FamiliesAreWellFormed()
    ensures IndexedFields.WellFormed(INPUTS) && IndexedFields.WellFormed(OUTPUTS) && IndexedFields.WellFormed(METADATA)
  {
    assert |"id"| == 2 && |"role"| == 4 && |"key"| == 3 && |"value"| == 5;
  }

  lemma FamiliesAreWords()
    ensures IsWord(INPUTS.prefix) && IsWord(OUTPUTS.prefix) && WordChar('_')
  {
  }

  lemma MetadataIsAWord()
    ensures IsWord(METADATA.prefix)
  {
  }

  lemma SuffixesAreWords()
    ensures IsWord("id") && IsWord("role") && IsWord("key") && IsWord("value")
  {
  }

  lemma RowsArePlain(h: Header)
    ensures forall row <- ObjectRows(h.inputs) :: forall value <- row :: Plain(value)
    ensures forall row <- ObjectRows(h.outputs) :: forall value <- row :: Plain(value)
    ensures forall row <- PairRows(h.pairs) :: forall value <- row :: Plain(value)
  {
    ObjectRowsArePlain(h.inputs);
    ObjectRowsArePlain(h.outputs);
    forall i | 0 <= i < |h.pairs|
      ensures forall value <- PairRows(h.pairs)[i] :: Plain(value)
    {
      EscapedIsPlain(h.pairs[i].key);
      EscapedIsPlain(h.pairs[i].value);
    }
  }

  lemma ObjectRowsArePlain(objects: seq<ObjectReference>)
    ensures forall row <- ObjectRows(objects) :: forall value <- row :: Plain(value)
  {
    forall i | 0 <= i < |objects|
      ensures forall value <- ObjectRows(objects)[i] :: Plain(value)
    {
      EscapedIsPlain(objects[i].objectId);
      EscapedIsPlain(objects[i].role);
    }
  }

  lemma FlagsAreOutside(phase: string, attempts: string, committed: string, size: string)
    ensures Outside(Flags(phase, attempts, committed, size), INPUTS)
    ensures Outside(Flags(phase, attempts, committed, size), OUTPUTS)
    ensures Outside(Flags(phase, attempts, committed, size), METADATA)
  {
    assert |METADATA.prefix| == 14 && METADATA.prefix[0] == 't' && INPUTS.prefix[0] == 'i' && OUTPUTS.prefix[0] == 'o';
    assert |"task_phase"| == 10 && "commit_attempts"[0] == 'c' && "committed"[0] == 'c' && "event_count"[0] == 'e';
  }

  /** What follows each of the three lists is outside its family. */
  lemma RestIsOutside(h: Header, size: nat)
    ensures Outside(FlagsOf(h, size), METADATA)
    ensures Outside(Counted(METADATA, PairRows(h.pairs)) + FlagsOf(h, size), OUTPUTS)
    ensures Outside(
      Counted(OUTPUTS, ObjectRows(h.outputs)) + Counted(METADATA, PairRows(h.pairs)) + FlagsOf(h, size), INPUTS)
  {
    FlagsAreOutside(NatText(h.phase), NatText(h.commitAttempts), if h.committed then "1" else "0", NatText(size));
    assert METADATA.prefix[0] == 't' && INPUTS.prefix[0] == 'i' && OUTPUTS.prefix[0] == 'o';
    CountedIsOutside(METADATA, PairRows(h.pairs), OUTPUTS);
    CountedIsOutside(METADATA, PairRows(h.pairs), INPUTS);
    CountedIsOutside(OUTPUTS, ObjectRows(h.outputs), INPUTS);
  }

  /** A counted list of two-column rows is in the map. */
  ghost predicate Keeps(kept: map<string, string>, fam: Family, rows: seq<seq<string>>)
    requires |fam.suffixes| == 2 && forall row <- rows :: |row| == 2
  {
    && ValueOf(kept, CountKey(fam)) == NatText(|rows|)
    && forall i :: 0 <= i < |rows| ==> KeepsRow(kept, fam, rows, i)
  }

  ghost predicate KeepsRow(kept: map<string, string>, fam: Family, rows: seq<seq<string>>, i: nat)
    requires |fam.suffixes| == 2 && i < |rows| && |rows[i]| == 2
  {
    && ValueOf(kept, Key(fam, i, fam.suffixes[0])) == rows[i][0]
    && ValueOf(kept, Key(fam, i, fam.suffixes[1])) == rows[i][1]
  }

  lemma ListIsKept(a: seq<Field>, fam: Family, rows: seq<seq<string>>, rest: seq<Field>, fields: seq<Field>)
    requires IndexedFields.WellFormed(fam) && |fam.suffixes| == 2 && (forall row <- rows :: |row| == 2)
      && Outside(rest, fam)
    requires fields == a + Counted(fam, rows) + rest
    ensures Keeps(Collected(fields, |fields|), fam, rows)
  {
    CountKept(a, fam, rows, rest);
    forall i | 0 <= i < |rows|
      ensures KeepsRow(Collected(fields, |fields|), fam, rows, i)
    {
      RowKept(a, fam, rows, rest, i, 0);
      RowKept(a, fam, rows, rest, i, 1);
    }
  }

  lemma Regrouped(a: seq<Field>, b: seq<Field>, c: seq<Field>, d: seq<Field>, e: seq<Field>)
    ensures a + b + c + d + e == a + b + (c + d + e) == a + b + c + (d + e)
  {
  }

  lemma ListsAreKept(h: Header, size: nat)
    ensures var kept := Collected(LogFields(h, size), |LogFields(h, size)|);
      && Keeps(kept, INPUTS, ObjectRows(h.inputs)) && Keeps(kept, OUTPUTS, ObjectRows(h.outputs))
      && Keeps(kept, METADATA, PairRows(h.pairs))
  {
    FamiliesAreWellFormed();
    RestIsOutside(h, size);
    TheseAreKept(Names(h), ObjectRows(h.inputs), ObjectRows(h.outputs), PairRows(h.pairs), FlagsOf(h, size));
  }

  lemma TheseAreKept(
      names: seq<Field>, inputs: seq<seq<string>>, outputs: seq<seq<string>>, pairs: seq<seq<string>>,
      flags: seq<Field>)
    requires IndexedFields.WellFormed(INPUTS) && IndexedFields.WellFormed(OUTPUTS) && IndexedFields.WellFormed(METADATA)
    requires (forall row <- inputs :: |row| == 2) && (forall row <- outputs :: |row| == 2)
      && forall row <- pairs :: |row| == 2
    requires Outside(flags, METADATA) && Outside(Counted(METADATA, pairs) + flags, OUTPUTS)
    requires Outside(Counted(OUTPUTS, outputs) + Counted(METADATA, pairs) + flags, INPUTS)
    ensures var fields :=
      names + Counted(INPUTS, inputs) + Counted(OUTPUTS, outputs) + Counted(METADATA, pairs) + flags;
      var kept := Collected(fields, |fields|);
      Keeps(kept, INPUTS, inputs) && Keeps(kept, OUTPUTS, outputs) && Keeps(kept, METADATA, pairs)
  {
    var a, b, c := Counted(INPUTS, inputs), Counted(OUTPUTS, outputs), Counted(METADATA, pairs);
    var fields := names + a + b + c + flags;
    Regrouped(names, a, b, c, flags);
    ListIsKept(names, INPUTS, inputs, b + c + flags, fields);
    ListIsKept(names + a, OUTPUTS, outputs, c + flags, fields);
    ListIsKept(names + a + b, METADATA, pairs, flags, fields);
  }

  /** The flags come last, and their keys differ. */
  lemma FlagsAreKept(a: seq<Field>, phase: string, attempts: string, committed: string, size: string)
    ensures var fields := a + Flags(phase, attempts, committed, size);
      var kept := Collected(fields, |fields|);
      && ValueOf(kept, "task_phase") == phase && ValueOf(kept, "commit_attempts") == attempts
      && ValueOf(kept, "committed") == committed
  {
    var fields := a + Flags(phase, attempts, committed, size);
    assert |"task_phase"| == 10 && |"commit_attempts"| == 15 && |"committed"| == 9 && |"event_count"| == 11;
    CollectedHas(fields, |fields|, |a|);
    CollectedHas(fields, |fields|, |a| + 1);
    CollectedHas(fields, |fields|, |a| + 2);
  }

  // ---- The round trip ----

  /** The objects that have an id. */
  function Identified(objects: seq<ObjectReference>, n: nat): seq<ObjectReference>
    requires n <= |objects|
  {
    if n == 0 then []
    else Identified(objects, n - 1) + if objects[n - 1].objectId == "" then [] else [objects[n - 1]]
  }

  lemma {:induction false} ObjectsRestore(kept: map<string, string>, fam: Family, objects: seq<ObjectReference>, n: nat)
    requires fam.suffixes == ["id", "role"] && Keeps(kept, fam, ObjectRows(objects)) && n <= |objects|
    ensures RestoredObjects(kept, fam, n) == Identified(objects, n)
  {
    if n > 0 {
      ObjectsRestore(kept, fam, objects, n - 1);
      assert KeepsRow(kept, fam, ObjectRows(objects), n - 1);
      UnescapeInvertsEscape(objects[n - 1].objectId);
      UnescapeInvertsEscape(objects[n - 1].role);
    }
  }

  predicate PairIn(kept: map<string, string>, p: Field, i: nat) {
    && MetadataValue(kept, Key(METADATA, i, "key")) == p.key
    && MetadataValue(kept, Key(METADATA, i, "value")) == p.value
  }

  lemma PairsIn(kept: map<string, string>, pairs: seq<Field>, i: nat)
    requires Keeps(kept, METADATA, PairRows(pairs)) && i < |pairs|
    ensures PairIn(kept, pairs[i], i)
  {
    assert KeepsRow(kept, METADATA, PairRows(pairs), i);
    UnescapeInvertsEscape(pairs[i].key);
    UnescapeInvertsEscape(pairs[i].value);
  }

  /** Restoring finds every pair whose key is not empty. */
  lemma {:induction false} RestoredHas(kept: map<string, string>, pairs: seq<Field>, n: nat, i: nat)
    requires i < n <= |pairs| && pairs[i].key != ""
    requires forall j, k :: 0 <= j < k < |pairs| ==> pairs[j].key != pairs[k].key
    requires forall j :: 0 <= j < |pairs| ==> PairIn(kept, pairs[j], j)
    ensures pairs[i].key in RestoredPairs(kept, n) && RestoredPairs(kept, n)[pairs[i].key] == pairs[i].value
  {
    assert PairIn(kept, pairs[n - 1], n - 1);
    if i < n - 1 {
      RestoredHas(kept, pairs, n - 1, i);
    }
  }

  /** And nothing else. */
  lemma {:induction false} RestoredOnly(kept: map<string, string>, pairs: seq<Field>, n: nat)
    requires n <= |pairs| && forall j :: 0 <= j < |pairs| ==> PairIn(kept, pairs[j], j)
    ensures forall key <- RestoredPairs(kept, n) :: key != "" && exists p <- pairs :: p.key == key
  {
    if n > 0 {
      RestoredOnly(kept, pairs, n - 1);
      assert PairIn(kept, pairs[n - 1], n - 1) && pairs[n - 1] in pairs;
    }
  }

  lemma AllPairsIn(kept: map<string, string>, pairs: seq<Field>)
    requires Keeps(kept, METADATA, PairRows(pairs))
    ensures forall i :: 0 <= i < |pairs| ==> PairIn(kept, pairs[i], i)
  {
    forall i | 0 <= i < |pairs|
      ensures PairIn(kept, pairs[i], i)
    {
      PairsIn(kept, pairs, i);
    }
  }

  /** The entries of `task` that recovery can restore. */
  function Keyed(task: map<string, string>): map<string, string> {
    map key | key in task && key != "" :: task[key]
  }

  lemma PairsRestore(kept: map<string, string>, pairs: seq<Field>, task: map<string, string>)
    requires Lists(pairs, task) && forall i :: 0 <= i < |pairs| ==> PairIn(kept, pairs[i], i)
    ensures RestoredPairs(kept, |pairs|) == Keyed(task)
  {
    var restored := RestoredPairs(kept, |pairs|);
    RestoredOnly(kept, pairs, |pairs|);
    forall key | key in task && key != ""
      ensures key in restored && restored[key] == task[key]
    {
      var i :| 0 <= i < |pairs| && pairs[i] == Field(key, task[key]);
      RestoredHas(kept, pairs, |pairs|, i);
    }
    SameMap(restored, pairs, task);
  }

  lemma SameMap(restored: map<string, string>, pairs: seq<Field>, task: map<string, string>)
    requires Lists(pairs, task)
    requires forall key <- restored :: key != "" && exists p <- pairs :: p.key == key
    requires forall key | key in task && key != "" :: key in restored && restored[key] == task[key]
    ensures restored == Keyed(task)
  {
    assert forall key <- restored :: key in task;
  }

  lemma SizeRestores(kept: map<string, string>, fam: Family, rows: seq<seq<string>>)
    requires |fam.suffixes| == 2 && (forall row <- rows :: |row| == 2) && Keeps(kept, fam, rows) && |rows| <= UINT64_MAX
    ensures MetadataSize(kept, fam) == |rows|
  {
    NumberDecodes(|rows|);
    ToUInt64OfNatText(|rows|);
  }

  lemma NumberDecodes(n: nat)
    ensures Unescape(NatText(n)) == NatText(n)
  {
    DigitsArePlain(n);
    assert AllDigits(NatText(n));
    PlainDecodes(NatText(n));
  }

  predicate FitsHeader(h: Header) {
    |h.inputs| <= UINT64_MAX && |h.outputs| <= UINT64_MAX && |h.pairs| <= UINT64_MAX && h.commitAttempts <= UINT64_MAX
  }

  /** What a reader of the log finds out about the session. */
  ghost predicate Recovers(metadata: map<string, string>, h: Header, task: map<string, string>) {
    && RestoredContext(metadata) == TaskContext(
         Identified(h.inputs, |h.inputs|), Identified(h.outputs, |h.outputs|), Keyed(task))
    && FlagsHold(metadata, h)
  }

  lemma HeaderRecovers(h: Header, size: nat, task: map<string, string>)
    requires FitsHeader(h) && Lists(h.pairs, task)
    ensures Recovers(Collected(LogFields(h, size), |LogFields(h, size)|), h, task)
  {
    var kept := Collected(LogFields(h, size), |LogFields(h, size)|);
    ListsAreKept(h, size);
    ContextRestores(kept, h, task);
    FlagsRecover(h, size);
  }

  lemma ContextRestores(kept: map<string, string>, h: Header, task: map<string, string>)
    requires FitsHeader(h) && Lists(h.pairs, task)
    requires Keeps(kept, INPUTS, ObjectRows(h.inputs)) && Keeps(kept, OUTPUTS, ObjectRows(h.outputs))
    requires Keeps(kept, METADATA, PairRows(h.pairs))
    ensures RestoredContext(kept) == TaskContext(
      Identified(h.inputs, |h.inputs|), Identified(h.outputs, |h.outputs|), Keyed(task))
  {
    SizeRestores(kept, INPUTS, ObjectRows(h.inputs));
    SizeRestores(kept, OUTPUTS, ObjectRows(h.outputs));
    SizeRestores(kept, METADATA, PairRows(h.pairs));
    ObjectsRestore(kept, INPUTS, h.inputs, |h.inputs|);
    ObjectsRestore(kept, OUTPUTS, h.outputs, |h.outputs|);
    AllPairsIn(kept, h.pairs);
    PairsRestore(kept, h.pairs, task);
  }

  lemma FlagsRecover(h: Header, size: nat)
    requires FitsHeader(h)
    ensures FlagsHold(Collected(LogFields(h, size), |LogFields(h, size)|), h)
  {
    FlagsAreKept(
      Names(h) + Counted(INPUTS, ObjectRows(h.inputs)) + Counted(OUTPUTS, ObjectRows(h.outputs))
        + Counted(METADATA, PairRows(h.pairs)),
      NatText(h.phase), NatText(h.commitAttempts), if h.committed then "1" else "0", NatText(size));
    FlagsDecode(Collected(LogFields(h, size), |LogFields(h, size)|), h);
  }

  predicate FlagsHold(metadata: map<string, string>, h: Header) {
    && MetadataValue(metadata, "task_phase") == NatText(h.phase)
    && ToUInt64(MetadataValue(metadata, "commit_attempts")) == h.commitAttempts
    && (MetadataValue(metadata, "committed") == "1" <==> h.committed)
  }

  lemma FlagsDecode(kept: map<string, string>, h: Header)
    requires FitsHeader(h) && ValueOf(kept, "task_phase") == NatText(h.phase)
    requires ValueOf(kept, "commit_attempts") == NatText(h.commitAttempts)
    requires ValueOf(kept, "committed") == if h.committed then "1" else "0"
    ensures FlagsHold(kept, h)
  {
    NumberDecodes(h.phase);
    NumberDecodes(h.commitAttempts);
    ToUInt64OfNatText(h.commitAttempts);
    PlainDecodes("0");
    PlainDecodes("1");
  }

  /** A written log is read back: all events, the input and output objects that have an id, exactly the task
      metadata whose keys are not empty, the phase, the commit attempts and the committed flag, whatever
      text the session holds. */
  lemma TaskLogRoundTrip(h: Header, events: seq<TaskEvent>, task: map<string, string>)
    requires FitsHeader(h) && Lists(h.pairs, task) && forall e <- events :: FitsEvent(e)
    ensures var log := ParseTaskLog(PrintTaskLog(h, events));
      log.Some? && log.value.events == events && Recovers(log.value.metadata, h, task)
  {
    FieldsPrintable(h, |events|);
    FieldsAndEventsParse(LogFields(h, |events|), events);
    HeaderRecovers(h, |events|, task);
  }

  lemma FormatIsPlain()
    ensures '\n' !in FORMAT.header && '\n' !in FORMAT.marker
  {
  }

  lemma FieldsAndEventsParse(fields: seq<Field>, events: seq<TaskEvent>)
    requires (forall f <- fields :: Printable(FORMAT, f)) && forall e <- events :: FitsEvent(e)
    ensures ParseTaskLog(PrintLog(FORMAT, fields, EventRows(events)))
      == Some(TaskLog(Collected(fields, |fields|), events))
  {
    FormatIsPlain();
    EventsRoundTrip(events);
    ParsePrinted(FORMAT, fields, EventRows(events));
    LogDecodes(
      PrintLog(FORMAT, fields, EventRows(events)), Log(Collected(fields, |fields|), EventRows(events)), events);
  }

  lemma LogDecodes(text: string, log: Log, events: seq<TaskEvent>)
    requires ParseLog(FORMAT, text) == Some(log) && ParseEvents(log.rows) == Some(events)
    ensures ParseTaskLog(text) == Some(TaskLog(log.metadata, events))
  {
  }

  lemma FieldsPrintable(h: Header, size: nat)
    ensures forall f <- LogFields(h, size) :: Printable(FORMAT, f)
  {
    FamiliesAreWords();
    MetadataIsAWord();
    SuffixesAreWords();
    RowsArePlain(h);
    CountedPrintable(INPUTS, ObjectRows(h.inputs), FORMAT);
    CountedPrintable(OUTPUTS, ObjectRows(h.outputs), FORMAT);
    CountedPrintable(METADATA, PairRows(h.pairs), FORMAT);
    NamesPrintable(h);
    DigitsArePlain(h.phase);
    DigitsArePlain(h.commitAttempts);
    DigitsArePlain(size);
    FlagsPrintable(NatText(h.phase), NatText(h.commitAttempts), if h.committed then "1" else "0", NatText(size));
  }

  lemma NameKeysAreWords()
    ensures IsWord("task_id") && IsWord("txn_id") && IsWord("workload_name") && IsWord("planner_id")
  {
  }

  lemma FlagKeysAreWords()
    ensures IsWord("task_phase") && IsWord("commit_attempts") && IsWord("committed") && IsWord("event_count")
  {
  }

  lemma NamesPrintable(h: Header)
    ensures forall f <- Names(h) :: Printable(FORMAT, f)
  {
    NameKeysAreWords();
    EscapedIsPlain(h.taskId);
    EscapedIsPlain(h.txnId);
    EscapedIsPlain(h.workloadName);
    EscapedIsPlain(h.plannerId);
    KeyedFieldPrintable(FORMAT, Field("task_id", Escape(h.taskId)));
    KeyedFieldPrintable(FORMAT, Field("txn_id", Escape(h.txnId)));
    KeyedFieldPrintable(FORMAT, Field("workload_name", Escape(h.workloadName)));
    KeyedFieldPrintable(FORMAT, Field("planner_id", Escape(h.plannerId)));
  }

  lemma FlagsPrintable(phase: string, attempts: string, committed: string, size: string)
    requires Plain(phase) && Plain(attempts) && Plain(committed) && Plain(size)
    ensures forall f <- Flags(phase, attempts, committed, size) :: Printable(FORMAT, f)
  {
    FlagKeysAreWords();
    KeyedFieldPrintable(FORMAT, Field("task_phase", phase));
    KeyedFieldPrintable(FORMAT, Field("commit_attempts", attempts));
    KeyedFieldPrintable(FORMAT, Field("committed", committed));
    KeyedFieldPrintable(FORMAT, Field("event_count", size));
  }

  // ---- Deciding from the text ----

  /** The decision that recovery reads off a parsed log. */
  function DecisionOf(log: TaskLog): TaskRecovery.Decision {
    TaskRecovery.Decide(
      MetadataValue(log.metadata, "committed") == "1", MetadataValue(log.metadata, "task_phase"), log.events)
  }

  /** What a parsed log needs for its session to be recovered: the two lines that are looked up without a
      default, a task id, and a valid plan. */
  predicate Recoverable(log: TaskLog) {
    && "commit_attempts" in log.metadata && "committed" in log.metadata
    && MetadataValue(log.metadata, "task_id") != ""
    && ValidPlan(TaskRecovery.RecoveredPlan(log.events, DecisionOf(log).branchId))
  }

  predicate HasLine(lines: seq<string>, k: nat, key: string)
    requires k <= |lines|
  {
    exists j :: 1 <= j < k && Gives(lines[j], key)
  }

  /** No text is recovered that lacks a line with the attempts, the flag or the task id before its first marker. */
  lemma RecoverableHasLines(text: string, k: nat)
    requires Lines(text) != [] && FirstMarker(FORMAT, Lines(text), 1, k)
    requires ParseTaskLog(text).Some? && Recoverable(ParseTaskLog(text).value)
    ensures var lines := Lines(text);
      HasLine(lines, k, "commit_attempts") && HasLine(lines, k, "committed") && HasLine(lines, k, "task_id")
  {
    ValuesExactly(FORMAT, text, k, "commit_attempts");
    ValuesExactly(FORMAT, text, k, "committed");
    ValuesExactly(FORMAT, text, k, "task_id");
  }

  /** From the file, recovery decides what it would decide from the session itself. */
  lemma DecisionFromText(h: Header, events: seq<TaskEvent>, task: map<string, string>)
    requires FitsHeader(h) && Lists(h.pairs, task) && forall e <- events :: FitsEvent(e)
    ensures var log := ParseTaskLog(PrintTaskLog(h, events));
      log.Some? && DecisionOf(log.value) == TaskRecovery.Decide(h.committed, NatText(h.phase), events)
  {
    TaskLogRoundTrip(h, events, task);
  }

  // ---- Recovering what was written ----

  /** The names after the task id. */
  function OtherNames(h: Header): seq<Field> {
    [Field("txn_id", Escape(h.txnId)), Field("workload_name", Escape(h.workloadName)),
     Field("planner_id", Escape(h.plannerId))]
  }

  /** The lines after the first one. */
  function AfterTaskId(h: Header, size: nat): seq<Field> {
    OtherNames(h) + Counted(INPUTS, ObjectRows(h.inputs)) + Counted(OUTPUTS, ObjectRows(h.outputs))
    + Counted(METADATA, PairRows(h.pairs)) + FlagsOf(h, size)
  }

  lemma FirstOfMany(
      names: seq<Field>, f: Field, a: seq<Field>, b: seq<Field>, c: seq<Field>, d: seq<Field>, e: seq<Field>)
    requires names == [f] + a
    ensures names + b + c + d + e == [f] + (a + b + c + d + e)
  {
  }

  lemma TaskIdIsFirstName(h: Header)
    ensures Names(h) == [Field("task_id", Escape(h.taskId))] + OtherNames(h)
  {
  }

  lemma TaskIdComesFirst(h: Header, size: nat)
    ensures LogFields(h, size) == [Field("task_id", Escape(h.taskId))] + AfterTaskId(h, size)
  {
    TaskIdIsFirstName(h);
    FirstOfMany(Names(h), Field("task_id", Escape(h.taskId)), OtherNames(h), Counted(INPUTS, ObjectRows(h.inputs)),
                Counted(OUTPUTS, ObjectRows(h.outputs)), Counted(METADATA, PairRows(h.pairs)), FlagsOf(h, size));
  }

  lemma TaskIdIsFree(h: Header, size: nat)
    ensures Free(AfterTaskId(h, size), "task_id")
  {
    assert |"task_id"| == 7 && |INPUTS.prefix| == 13 && |OUTPUTS.prefix| == 14 && |METADATA.prefix| == 14;
    CountedIsFree(INPUTS, ObjectRows(h.inputs), "task_id");
    CountedIsFree(OUTPUTS, ObjectRows(h.outputs), "task_id");
    CountedIsFree(METADATA, PairRows(h.pairs), "task_id");
    NamesAndFlagsAreNoTaskId(h, FlagsOf(h, size));
  }

  lemma NamesAndFlagsAreNoTaskId(h: Header, flags: seq<Field>)
    requires exists phase, attempts, committed, size :: flags == Flags(phase, attempts, committed, size)
    ensures Free(OtherNames(h), "task_id") && Free(flags, "task_id")
  {
    assert |"task_id"| == 7 && |"txn_id"| == 6 && |"workload_name"| == 13 && |"planner_id"| == 10;
    assert |"task_phase"| == 10 && |"commit_attempts"| == 15 && |"committed"| == 9 && |"event_count"| == 11;
  }

  lemma TaskIdIsKept(h: Header, size: nat)
    ensures MetadataValue(Collected(LogFields(h, size), |LogFields(h, size)|), "task_id") == h.taskId
  {
    TaskIdComesFirst(h, size);
    TaskIdIsFree(h, size);
    HasFirst(Field("task_id", Escape(h.taskId)), AfterTaskId(h, size));
    UnescapeInvertsEscape(h.taskId);
  }

  /** A written log can be recovered exactly if its task has an id and the plan found in its events is valid. */
  lemma WrittenIsRecoverable(h: Header, events: seq<TaskEvent>, task: map<string, string>)
    requires FitsHeader(h) && Lists(h.pairs, task) && forall e <- events :: FitsEvent(e)
    ensures var log := ParseTaskLog(PrintTaskLog(h, events));
      && log.Some?
      && (Recoverable(log.value) <==>
            h.taskId != ""
            && ValidPlan(TaskRecovery.RecoveredPlan(
                 events, TaskRecovery.Decide(h.committed, NatText(h.phase), events).branchId)))
  {
    DecisionFromText(h, events, task);
    FieldsPrintable(h, |events|);
    FieldsAndEventsParse(LogFields(h, |events|), events);
    TaskIdIsKept(h, |events|);
    FlagsAreThere(h, |events|);
  }

  lemma FlagsAreThere(h: Header, size: nat)
    ensures var kept := Collected(LogFields(h, size), |LogFields(h, size)|);
      "commit_attempts" in kept && "committed" in kept
  {
    FlagsAreKept(
      Names(h) + Counted(INPUTS, ObjectRows(h.inputs)) + Counted(OUTPUTS, ObjectRows(h.outputs))
        + Counted(METADATA, PairRows(h.pairs)),
      NatText(h.phase), NatText(h.commitAttempts), if h.committed then "1" else "0", NatText(size));
    DigitsArePlain(h.commitAttempts);
  }

  /** So the log of a session whose task was accepted can always be recovered, whatever it did. */
  lemma SubmittedIsRecoverable(
      h: Header, run: seq<Session>, plans: seq<BranchPlan>, ops: seq<SessionOp>, m: Values, n: nat,
      task: map<string, string>)
    requires FitsHeader(h) && Lists(h.pairs, task) && h.taskId != ""
    requires TaskRecovery.StartsWith(run, plans) && ValidPlan(plans) && IsRun(run, ops, m) && n <= |ops|
    requires forall e <- run[n].events :: FitsEvent(e)
    ensures var log := ParseTaskLog(PrintTaskLog(h, run[n].events)); log.Some? && Recoverable(log.value)
  {
    TaskRecovery.RebuildSimulates(
      run, plans, ops, m, n, TaskRecovery.Decide(h.committed, NatText(h.phase), run[n].events).branchId);
    WrittenIsRecoverable(h, run[n].events, task);
  }
}
