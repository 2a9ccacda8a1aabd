/** The file-backed store: how a map reaches the disk, and what a load finds after crashes.

    The disk holds three cells: the text of the store file, that of a temporary snapshot, and a journal
    whose existence is all that counts. Writing a snapshot, renaming and removing are one step each.
    `FileKVStore` is the code; the machine around it adds crashes, restarts and failing steps.
  */
module FileStore {
  import opened Wrappers
  import opened KvStore
  import opened SnapshotText

  datatype Disk = Disk(main: Option<string>, temp: Option<string>, journal: bool)

  /** What a load reads; a missing store file reads as empty text. */
  function Content(d: Disk): string {
    match d.main
    case Some(text) => text
    case None => ""
  }

  // ---- The steps of persisting and recovering ----

  datatype PersistStage = WriteJournal | WriteSnapshot | RenameSnapshot | RemoveJournal

  function PersistEffect(d: Disk, text: string, stage: PersistStage): Disk {
    match stage
    case WriteJournal => d.(journal := true)
    case WriteSnapshot => d.(temp := Some(text))
    case RenameSnapshot => d.(main := d.temp, temp := None)
    case RemoveJournal => d.(journal := false)
  }

  /** The first effect of recovery, read off which files exist. */
  function RecoverEffect(d: Disk): Disk {
    if d.journal && d.temp.Some? then d.(main := d.temp, temp := None)
    else if d.journal then d.(journal := false)
    else if d.temp.Some? then d.(temp := None)
    else d
  }

  // ---- The machine ----

  datatype Process =
    | Down
    | Up
    | Persisting(text: string, stage: PersistStage)
    | Loading             // about to look at the files
    | Finishing           // renamed a snapshot, about to remove the journal

  /** `saved` is the snapshot of the last persist or load that completed, `tried` the snapshots whose persist
      began since. */
  datatype System = System(disk: Disk, process: Process, saved: string, tried: set<string>)

  function Loaded(s: System, d: Disk): System {
    System(d, Up, Content(d), {})
  }

  /** The next step of the process, if it has one. */
  function Next(s: System): System {
    match s.process
    case Down => s
    case Up => s
    case Persisting(text, stage) => (
      var d := PersistEffect(s.disk, text, stage);
      match stage
      case WriteJournal => s.(disk := d, process := Persisting(text, WriteSnapshot))
      case WriteSnapshot => s.(disk := d, process := Persisting(text, RenameSnapshot))
      case RenameSnapshot => s.(disk := d, process := Persisting(text, RemoveJournal))
      case RemoveJournal => System(d, Up, text, {})
    )
    case Loading =>
      var d := RecoverEffect(s.disk);
      if s.disk.journal && s.disk.temp.Some? then s.(disk := d, process := Finishing) else Loaded(s, d)
    case Finishing => Loaded(s, s.disk.(journal := false))
  }

  /** A failing step leaves the files as they are and gives up. */
  function Failing(s: System): System {
    match s.process
    case Persisting(_, _) => s.(process := Up)
    case Loading => s.(process := Up)
    case Finishing => s.(process := Up)
    case _ => s
  }

  ghost predicate QuietStep(s: System, t: System) {
    || t == Next(s)
    || t == s.(process := Down)
    || ((s.process.Down? || s.process.Up?) && t == s.(process := Loading))
    || (s.process.Up? && t.process.Persisting? && t.process.stage.WriteJournal?
        && t == s.(process := t.process, tried := s.tried + {t.process.text}))
  }

  ghost predicate Step(s: System, t: System) {
    QuietStep(s, t) || t == Failing(s)
  }

  ghost predicate Init(s: System) {
    s.disk.temp.None? && !s.disk.journal && s.process == Loading && s.saved == Content(s.disk) && s.tried == {}
  }

  ghost predicate StepAt(run: seq<System>, i: nat)
    requires 0 < i < |run|
  {
    Step(run[i - 1], run[i])
  }

  ghost predicate QuietAt(run: seq<System>, i: nat)
    requires 0 < i < |run|
  {
    QuietStep(run[i - 1], run[i])
  }

  ghost predicate IsRun(run: seq<System>) {
    run != [] && Init(run[0]) && forall i :: 0 < i < |run| ==> StepAt(run, i)
  }

  /** A run in which no file operation fails; it may still crash anywhere. */
  ghost predicate IsQuietRun(run: seq<System>) {
    run != [] && Init(run[0]) && forall i :: 0 < i < |run| ==> QuietAt(run, i)
  }

  // ---- The invariant ----

  ghost predicate Inv(s: System) {
    && (Content(s.disk) == s.saved || Content(s.disk) in s.tried)
    && (s.disk.temp.Some? ==> s.disk.journal && s.disk.temp.value in s.tried)
    && match s.process
       case Persisting(text, stage) =>
         && text in s.tried
         && (!stage.WriteJournal? ==> s.disk.journal)
         && (stage.RenameSnapshot? ==> s.disk.temp == Some(text))
         && (stage.RemoveJournal? ==> s.disk.temp == None && s.disk.main == Some(text))
       case Finishing => s.disk.temp == None && s.disk.journal
       case _ => true
  }

  lemma {:induction false} RunKeepsInv(run: seq<System>, i: nat)
    requires IsRun(run) && i < |run|
    ensures Inv(run[i])
  {
    if i > 0 {
      RunKeepsInv(run, i - 1);
      assert StepAt(run, i);
    }
  }

  // ---- The theorems ----

  /** Crash atomicity: whatever crashes, restarts and failing file operations came before, a load that
      gets to the store file finds the snapshot saved last or one whose persist began since, whole, and
      neither a temporary file nor a journal is left. */
  lemma LoadIsOldOrNew(run: seq<System>, i: nat)
    requires IsRun(run) && i < |run| && (run[i].process.Loading? || run[i].process.Finishing?)
    requires Next(run[i]).process.Up?
    ensures var s, t := run[i], Next(run[i]);
      && (Content(t.disk) == s.saved || Content(t.disk) in s.tried)
      && t.saved == Content(t.disk)
      && t.disk.temp == None && !t.disk.journal
  {
    RunKeepsInv(run, i);
  }

  /** The branch of recovery for a temporary file without a journal is never taken. */
  lemma TempMeansJournal(run: seq<System>, i: nat)
    requires IsRun(run) && i < |run|
    ensures run[i].disk.temp.Some? ==> run[i].disk.journal
  {
    RunKeepsInv(run, i);
  }

  /** `text` is a store file that holds `m`, in whatever order the hash map yields it, or a missing file. */
  ghost predicate Stores(text: string, m: Values) {
    (text == "" && m == map[]) || exists rows :: RowsOf(rows, m) && text == PrintSnapshot(rows)
  }

  lemma StoredIsLoaded(text: string, m: Values)
    requires Stores(text, m) && Representable(m)
    ensures var load := LoadSnapshot(text);
      && (load.ok <==> forall key <- m :: m[key].value != "")
      && (load.ok ==> load.values == m)
  {
    if rows :| RowsOf(rows, m) && text == PrintSnapshot(rows) {
      SnapshotRoundTrip(m, rows);
    }
  }

  ghost predicate HoldMaps(texts: set<string>, maps: map<string, Values>) {
    forall text <- texts :: text in maps && Stores(text, maps[text]) && Representable(maps[text])
  }

  /** In terms of maps: if every snapshot in question holds a map, the load finds one of those maps whole,
      provided it has no empty value; and it succeeds exactly then. */
  lemma LoadIsOldOrNewMap(run: seq<System>, i: nat, maps: map<string, Values>)
    requires IsRun(run) && i < |run| && (run[i].process.Loading? || run[i].process.Finishing?)
    requires Next(run[i]).process.Up?
    requires HoldMaps({run[i].saved} + run[i].tried, maps)
    ensures var text := Next(run[i]).saved;
      && (text == run[i].saved || text in run[i].tried)
      && (LoadSnapshot(text).ok <==> forall key <- maps[text] :: maps[text][key].value != "")
      && (LoadSnapshot(text).ok ==> LoadSnapshot(text).values == maps[text])
  {
    LoadIsOldOrNew(run, i);
    StoredIsLoaded(Next(run[i]).saved, maps[Next(run[i]).saved]);
  }

  /** Which text a load will find: the snapshot, once it is complete. */
  function Outcome(d: Disk): string {
    if d.journal && d.temp.Some? then d.temp.value else Content(d)
  }

  /** Without failing operations there is at most one snapshot in doubt, and the files decide. */
  ghost predicate QuietInv(s: System) {
    && Inv(s)
    && match s.process
       case Up => s.saved == Content(s.disk) && s.tried == {} && !s.disk.journal
       case Persisting(text, stage) =>
         && s.tried == {text}
         && (!stage.RemoveJournal? ==> Content(s.disk) == s.saved)
         && (stage.WriteSnapshot? || stage.WriteJournal? ==> s.disk.temp == None)
       case _ => exists v :: s.tried <= {v}
  }

  lemma {:induction false} QuietRunKeepsInv(run: seq<System>, i: nat)
    requires IsQuietRun(run) && i < |run|
    ensures QuietInv(run[i])
  {
    if i > 0 {
      QuietRunKeepsInv(run, i - 1);
      assert QuietAt(run, i);
      if run[i - 1].process.Persisting? {
        assert run[i - 1].tried <= {run[i - 1].process.text};
      } else if run[i - 1].process.Up? {
        assert run[i - 1].tried <= {run[i - 1].saved};
      }
    } else {
      assert run[0].tried <= {run[0].saved};
    }
  }

  /** A state of a process that has crashed, or is recovering, or crashed again while recovering. */
  predicate Recovering(process: Process) {
    process.Down? || process.Loading? || process.Finishing?
  }

  /** Crashing, restarting and recovering never change what a load will find. */
  lemma {:induction false} OutcomeIsSettled(run: seq<System>, i: nat, j: nat)
    requires IsQuietRun(run) && i <= j < |run|
    requires forall k :: i <= k < j ==> Recovering(run[k].process)
    ensures Outcome(run[j].disk) == Outcome(run[i].disk)
    ensures i < j && run[j].process.Up? ==> run[j].saved == Outcome(run[i].disk)
    decreases j
  {
    if i < j {
      OutcomeIsSettled(run, i, j - 1);
      QuietRunKeepsInv(run, j - 1);
      assert QuietAt(run, j);
    }
  }

  /** The one instant that decides: after a crash while a snapshot was being persisted, and any number of
      crashes during recovery, the load finds the new text exactly if the snapshot had been written, and
      the old one otherwise. */
  lemma SnapshotDecides(run: seq<System>, i: nat, j: nat)
    requires IsQuietRun(run) && i + 1 < j < |run|
    requires run[i].process.Persisting? && run[i + 1].process.Down?
    requires (forall k :: i + 1 <= k < j ==> Recovering(run[k].process)) && run[j].process.Up?
    ensures run[j].saved ==
      if run[i].process.stage.WriteJournal? || run[i].process.stage.WriteSnapshot? then run[i].saved
      else run[i].process.text
  {
    QuietRunKeepsInv(run, i);
    assert QuietAt(run, i + 1);
    OutcomeIsSettled(run, i + 1, j);
  }

  // ---- What the store object does, as runs ----

  const STAGES: seq<PersistStage> := [WriteJournal, WriteSnapshot, RenameSnapshot, RemoveJournal]

  /** The disk after the first `n` steps of a persist. */
  function PersistedTo(d: Disk, text: string, n: nat): Disk
    requires n <= 4
  {
    if n == 0 then d else PersistEffect(PersistedTo(d, text, n - 1), text, STAGES[n - 1])
  }

  /** How many file operations recovery takes. */
  function RecoverySteps(d: Disk): nat {
    if d.journal && d.temp.Some? then 2 else if d.journal || d.temp.Some? then 1 else 0
  }

  /** The disk after the first `n` of them. */
  function RecoveredTo(d: Disk, n: nat): Disk {
    if n == 0 then d else if n == 1 then RecoverEffect(d) else RecoverEffect(d).(journal := false)
  }

  /** Whatever files it finds, even a temporary one without a journal, recovery leaves neither, and a store file
      with what a load would have found; it takes a step for each file it renames or removes. */
  lemma RecoveryLeavesOneFile(d: Disk)
    ensures var end := RecoveredTo(d, RecoverySteps(d));
      end.temp == None && !end.journal && Content(end) == Outcome(d)
    ensures RecoverySteps(d) == 0 <==> d.temp == None && !d.journal
  {
  }

  function Last(run: seq<System>): System
    requires run != []
  {
    run[|run| - 1]
  }

  lemma OneMoreStep(run: seq<System>, t: System)
    requires IsRun(run) && Step(Last(run), t)
    ensures IsRun(run + [t]) && run <= run + [t]
  {
    var longer := run + [t];
    forall i | 0 < i < |longer|
      ensures StepAt(longer, i)
    {
      assert i < |run| ==> StepAt(run, i);
    }
  }

  /** The machine after the first `n` steps of a persist that began in `s`. */
  function PersistingAfter(s: System, text: string, n: nat): System
    requires n <= 4
  {
    var d := PersistedTo(s.disk, text, n);
    if n == 4 then System(d, Up, text, {}) else System(d, Persisting(text, STAGES[n]), s.saved, s.tried + {text})
  }

  lemma {:induction false} PersistSteps(run: seq<System>, text: string, n: nat) returns (longer: seq<System>)
    requires IsRun(run) && Last(run).process.Up? && n <= 4
    ensures IsRun(longer) && run <= longer && Last(longer) == PersistingAfter(Last(run), text, n)
  {
    var before := run;
    if n > 0 {
      before := PersistSteps(run, text, n - 1);
    }
    OneMoreStep(before, PersistingAfter(Last(run), text, n));
    longer := before + [PersistingAfter(Last(run), text, n)];
  }

  /** A process that ends, by itself or by a crash, in the middle of a persist or a recovery. */
  lemma Ending(run: seq<System>, end: Process) returns (longer: seq<System>)
    requires IsRun(run) && !Last(run).process.Down? && (end.Up? || end.Down?)
    ensures IsRun(longer) && run <= longer && Last(longer) == Last(run).(process := end)
  {
    OneMoreStep(run, Last(run).(process := end));
    longer := run + [Last(run).(process := end)];
  }

  /** A persist that takes `n` steps before it ends continues any run: what it leaves on disk is what the
      machine leaves there, so the theorems above hold of it. */
  lemma PersistIsRun(run: seq<System>, text: string, n: nat, end: Process) returns (longer: seq<System>)
    requires IsRun(run) && Last(run).process.Up? && n <= 4 && (end.Up? || end.Down?)
    ensures IsRun(longer) && run <= longer
    ensures Last(longer).disk == PersistedTo(Last(run).disk, text, n) && Last(longer).process == end
    ensures (Last(longer).saved, Last(longer).tried) ==
      if n == 4 then (text, {}) else (Last(run).saved, Last(run).tried + {text})
  {
    longer := PersistSteps(run, text, n);
    longer := Ending(longer, end);
  }

  /** And so does a recovery that takes `n` of its steps: it has loaded the store file if these are all. */
  lemma RecoveryIsRun(run: seq<System>, n: nat, end: Process) returns (longer: seq<System>)
    requires IsRun(run) && (Last(run).process.Up? || Last(run).process.Down?)
    requires n <= RecoverySteps(Last(run).disk) && (end.Up? || end.Down?)
    ensures IsRun(longer) && run <= longer
    ensures Last(longer).disk == RecoveredTo(Last(run).disk, n) && Last(longer).process == end
    ensures (Last(longer).saved, Last(longer).tried) ==
      if n == RecoverySteps(Last(run).disk) then (Content(Last(longer).disk), {})
      else (Last(run).saved, Last(run).tried)
  {
    var s := Last(run);
    var loading := s.(process := Loading);
    OneMoreStep(run, loading);
    longer := run + [loading];
    if n > 0 || RecoverySteps(s.disk) == 0 {
      OneMoreStep(longer, Next(loading));
      longer := longer + [Next(loading)];
      if n == 2 {
        OneMoreStep(longer, Next(Next(loading)));
        longer := longer + [Next(Next(loading))];
      }
    }
    longer := Ending(longer, end);
  }

  // ---- The store object ----

  /** The three files; any operation on them may fail. */
  class Files {
    var disk: Disk

    method Apply(next: Disk) returns (ok: bool)
      modifies this
      ensures disk == if ok then next else old(disk)
    {
      if * {
        return false;
      }
      disk := next;
      ok := true;
    }
  }

  class FileKVStore {
    const files: Files
    var values: Values

    /** A load that fails goes unnoticed and leaves what it got, possibly nothing. */
    constructor (files: Files)
      modifies files
      ensures this.files == files && (values == LoadSnapshot(Outcome(old(files.disk))).values || values == map[])
      ensures Outcome(files.disk) == Outcome(old(files.disk))
    {
      this.files := files;
      this.values := map[];
      new;
      var loaded, recovered, n := LoadFromDisk();
    }

    /** Stops at the first step that fails; `n` counts the steps taken. */
    method PersistToDisk() returns (ok: bool, ghost n: nat, ghost text: string)
      modifies files
      ensures Stores(text, values) && n <= 4 && files.disk == PersistedTo(old(files.disk), text, n)
      ensures ok <==> n == 4
      ensures ok ==> files.disk == Disk(Some(text), None, false)
    {
      var rows := ListRows(values);
      var snapshot := PrintSnapshot(rows);
      text := snapshot;
      ok := files.Apply(PersistEffect(files.disk, snapshot, WriteJournal));
      if !ok {
        return false, 0, text;
      }
      assert files.disk == PersistedTo(old(files.disk), text, 1);
      ok := files.Apply(PersistEffect(files.disk, snapshot, WriteSnapshot));
      if !ok {
        return false, 1, text;
      }
      assert files.disk == PersistedTo(old(files.disk), text, 2);
      ok := files.Apply(PersistEffect(files.disk, snapshot, RenameSnapshot));
      if !ok {
        return false, 2, text;
      }
      assert files.disk == PersistedTo(old(files.disk), text, 3);
      ok := files.Apply(PersistEffect(files.disk, snapshot, RemoveJournal));
      n := if ok then 4 else 3;
    }

    /** Stops at the first step that fails; `n` counts the steps taken. Whether it gets through or not, it
        never changes what a load will find. */
    method RecoverIfNeeded() returns (ok: bool, ghost n: nat)
      modifies files
      ensures n <= RecoverySteps(old(files.disk)) && files.disk == RecoveredTo(old(files.disk), n)
      ensures ok <==> n == RecoverySteps(old(files.disk))
      ensures Outcome(files.disk) == Outcome(old(files.disk))
      ensures ok ==> files.disk.temp == None && !files.disk.journal
    {
      var hasJournal, hasTemp := files.disk.journal, files.disk.temp.Some?;
      if hasJournal && hasTemp {
        ok := files.Apply(RecoverEffect(files.disk));
        if !ok {
          return false, 0;
        }
        ok := files.Apply(files.disk.(journal := false));
        n := if ok then 2 else 1;
        return;
      }
      if hasJournal || hasTemp {
        ok := files.Apply(RecoverEffect(files.disk));
        n := if ok then 1 else 0;
        return;
      }
      ok, n := true, 0;
    }

    /** Once recovery got through, memory holds what the store file yields, all of it or the rows before
        one that cannot be read; before that, nothing. */
    method LoadFromDisk() returns (ok: bool, ghost recovered: bool, ghost n: nat)
      modifies this, files
      ensures n <= RecoverySteps(old(files.disk)) && files.disk == RecoveredTo(old(files.disk), n)
      ensures recovered <==> n == RecoverySteps(old(files.disk))
      ensures recovered ==>
        Load(ok, values) == LoadSnapshot(Outcome(old(files.disk))) && files.disk == Disk(files.disk.main, None, false)
      ensures !recovered ==> !ok && values == map[]
      ensures Outcome(files.disk) == Outcome(old(files.disk))
    {
      values := map[];
      ok, n := RecoverIfNeeded();
      recovered := ok;
      if ok && files.disk.main.Some? {
        var load := ReadSnapshot(files.disk.main.value);
        ok, values := load.ok, load.values;
      }
    }

    /** What every mutation leaves: the new map in memory, and its snapshot on disk when it reports success,
        else on its way there. */
    ghost predicate Persisted(before: Disk, ok: bool)
      reads this, files
    {
      exists text, n | n <= 4 ::
        && Stores(text, values) && files.disk == PersistedTo(before, text, n)
        && (ok <==> n == 4) && (ok ==> files.disk == Disk(Some(text), None, false))
    }

    method Put(key: string, value: string) returns (ok: bool)
      modifies this`values, files
      ensures values == Written(old(values), key, value) && Persisted(old(files.disk), ok)
    {
      var entry := if key in values then values[key] else Entry("", 0);
      values := values[key := Entry(value, entry.version + 1)];
      ghost var n, text;
      ok, n, text := PersistToDisk();
    }

    /** A refused put still creates an absent key in memory, and writes nothing. */
    method PutIfVersion(key: string, expected: nat, value: string) returns (ok: bool)
      modifies this`values, files
      ensures values == PutIf(old(values), key, expected, value).values
      ensures if PutIf(old(values), key, expected, value).ok then Persisted(old(files.disk), ok)
              else !ok && files.disk == old(files.disk)
    {
      if key !in values {
        values := values[key := Entry("", 0)];
      }
      var entry := values[key];
      if entry.version != expected {
        return false;
      }
      values := values[key := Entry(value, entry.version + 1)];
      assert old(values)[key := Entry("", 0)][key := Entry(value, 1)] == old(values)[key := Entry(value, 1)];
      ghost var n, text;
      ok, n, text := PersistToDisk();
    }

    method DeleteIfVersion(key: string, expected: nat) returns (ok: bool)
      modifies this`values, files
      ensures values == DeleteIf(old(values), key, expected).values
      ensures if DeleteIf(old(values), key, expected).ok then Persisted(old(files.disk), ok)
              else !ok && files.disk == old(files.disk)
    {
      var current := if key in values then values[key].version else 0;
      if current != expected {
        return false;
      }
      values := values - {key};
      ghost var n, text;
      ok, n, text := PersistToDisk();
    }

    method BatchPutIfVersion(checks: seq<VersionCheck>, writes: seq<WriteOp>) returns (ok: bool)
      modifies this`values, files
      ensures values == BatchPut(old(values), checks, writes).values
      ensures if BatchPut(old(values), checks, writes).ok then Persisted(old(files.disk), ok)
              else !ok && files.disk == old(files.disk)
    {
      for i := 0 to |checks|
        invariant forall j :: 0 <= j < i ==> Lookup(values, checks[j].key).version == checks[j].expectedVersion
        invariant values == old(values)
      {
        var current := if checks[i].key in values then values[checks[i].key].version else 0;
        if current != checks[i].expectedVersion {
          assert checks[i] in checks;
          return false;
        }
      }
      var next := values;
      for i := 0 to |writes|
        invariant PutAll(next, writes[i..]) == PutAll(old(values), writes)
      {
        var entry := if writes[i].key in next then next[writes[i].key] else Entry("", 0);
        next := next[writes[i].key := Entry(writes[i].value, entry.version + 1)];
        assert writes[i..][1..] == writes[i + 1..];
      }
      values := next;
      ghost var n, text;
      ok, n, text := PersistToDisk();
    }
  }
}
