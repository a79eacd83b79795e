/** Publishing the CI test report: write aside, back up, rename into place, and roll back on failure. */
module ReportWriter {
  import opened Results

  type Path = string
  type Text = string
  type Files = map<Path, Text>

  // ---------------------------------------------------------------- paths

  function TemporaryName(destination: Path, process: string, sequence: string): Path {
    "." + destination + "." + process + "." + sequence + ".tmp"
  }

  function BackupName(destination: Path, process: string, sequence: string): Path {
    "." + destination + "." + process + "." + sequence + ".bak"
  }

  /** The three files of one report never coincide, whatever the destination is called. */
  lemma {:induction false} NamesDiffer(destination: Path, process: string, sequence: string)
    ensures TemporaryName(destination, process, sequence) != destination
    ensures BackupName(destination, process, sequence) != destination
    ensures TemporaryName(destination, process, sequence) != BackupName(destination, process, sequence)
  {
    var temporary, backup := TemporaryName(destination, process, sequence), BackupName(destination, process, sequence);
    assert temporary[|temporary| - 1] == 'p' && backup[|backup| - 1] == 'k';
  }

  // ---------------------------------------------------------------- the report

  const FOOTER: Text := "]}\n"

  function Header(hostPlatform: Text, traceId: Text): Text {
    "{\"schema\":\"quokka.ci-test-report.v1\",\"host_platform\":" + hostPlatform + ",\"trace_id\":" + traceId
      + ",\"tests\":["
  }

  /** The records, separated by commas. */
  function Records(tests: seq<Text>): Text {
    if tests == [] then ""
    else if |tests| == 1 then tests[0]
    else Records(tests[..|tests| - 1]) + "," + tests[|tests| - 1]
  }

  function Report(hostPlatform: Text, traceId: Text, tests: seq<Text>): Text {
    Header(hostPlatform, traceId) + Records(tests) + FOOTER
  }

  // ---------------------------------------------------------------- the writer

  datatype Found = Absent | Regular | Irregular | Uninspectable

  datatype Removal = Removed | NotFound | NotRemoved

  /** What the writer asks of the file system. */
  datatype Operation =
    | CreateTemporary
    | Append(text: Text)
    | SyncTemporary
    | InspectDestination
    | CopyToBackupFile
    | SyncBackup
    | RenameIntoPlace
    | SyncDirectory
    | RestoreBackup
    | SyncDestination
    | RemoveTemporary
    | RemoveBackupFile
    | RemoveDestination

  /** Publishing a finished report: nothing is renamed before it and the backup are on disk. */
  function FinishPlan(previous: bool): seq<Operation> {
    if previous then
      [Append(FOOTER), SyncTemporary, InspectDestination, CopyToBackupFile, SyncBackup, RenameIntoPlace, SyncDirectory,
        RemoveBackupFile]
    else [Append(FOOTER), SyncTemporary, InspectDestination, RenameIntoPlace, SyncDirectory]
  }

  function SnapshotPlan(previous: bool): seq<Operation> {
    if previous then [InspectDestination, CopyToBackupFile, SyncBackup] else [InspectDestination]
  }

  function InstallPlan(previous: bool): seq<Operation> {
    [RenameIntoPlace, SyncDirectory] + (if previous then [RemoveBackupFile] else [])
  }

  lemma {:induction false} InstallIsJoined(previous: bool)
    ensures InstallPlan(previous)
            == [RenameIntoPlace] + ([SyncDirectory] + (if previous then [RemoveBackupFile] else []))
  {
  }

  lemma {:induction false} RestoreIsJoined()
    ensures [RemoveDestination, RestoreBackup, SyncDestination]
            == [RemoveDestination] + ([RestoreBackup] + [SyncDestination])
  {
  }

  lemma {:induction false} PlanIsJoined(previous: bool)
    ensures [Append(FOOTER), SyncTemporary] + (SnapshotPlan(previous) + InstallPlan(previous)) == FinishPlan(previous)
    ensures ([Append(FOOTER), SyncTemporary] + SnapshotPlan(previous)) + InstallPlan(previous) == FinishPlan(previous)
  {
  }

  /** Writing the records. */
  function RecordPlan(values: seq<Text>): seq<Operation> {
    if values == [] then []
    else
      var last := |values| - 1;
      RecordPlan(values[..last]) + ((if last == 0 then [] else [Append(",")]) + [Append(values[last])])
  }

  lemma {:induction false} RecordPlanPush(values: seq<Text>, value: Text)
    ensures RecordPlan(values + [value])
            == RecordPlan(values) + ((if values == [] then [] else [Append(",")]) + [Append(value)])
    ensures InspectDestination !in RecordPlan(values)
  {
    assert (values + [value])[..|values|] == values;
    if values != [] {
      RecordPlanPush(values[..|values| - 1], value);
    }
  }

  lemma {:induction false} NothingPlanned()
    ensures RecordPlan([]) == []
  {
  }

  lemma {:induction false} RecordPlanGrows(values: seq<Text>, k: nat)
    requires k <= |values|
    ensures RecordPlan(values[..k]) <= RecordPlan(values)
  {
    if k == |values| {
      assert values[..k] == values;
    } else {
      RecordPlanGrows(values[..|values| - 1], k);
      assert values[..|values| - 1][..k] == values[..k];
    }
  }

  lemma {:induction false} PlanInspects(previous: bool)
    ensures InspectDestination in FinishPlan(previous)
  {
    assert FinishPlan(previous)[2] == InspectDestination;
  }

  /** The operations of publishing that come after the rename. */
  predicate AfterRename(operation: Operation) {
    operation == SyncDirectory || operation == RemoveBackupFile
  }

  function Appends(texts: seq<Text>): seq<Operation> {
    seq(|texts|, i requires 0 <= i < |texts| => Append(texts[i]))
  }

  lemma {:induction false} NothingAppended()
    ensures Appends([]) == []
  {
  }

  lemma {:induction false} AppendsSplit(texts: seq<Text>, i: nat)
    requires i < |texts|
    ensures Appends(texts[..i]) + [Append(texts[i])] == Appends(texts[..i + 1])
    ensures Appends(texts[..i + 1]) + Appends(texts[i + 1..]) == Appends(texts)
  {
  }

  /** Undoing the rename. */
  function RollbackPlan(previous: bool): seq<Operation> {
    (if previous then [RemoveDestination, RestoreBackup, SyncDestination] else [RemoveDestination]) + [SyncDirectory]
  }

  function CleanupPlan(preserveRecovery: bool): seq<Operation> {
    [RemoveTemporary] + (if preserveRecovery then [] else [RemoveBackupFile])
  }

  class CiTestReportWriter {
    const destination: Path
    const temporary: Path
    const backup: Path
    /** Whether the n-th file operation fails, and what a failing write or copy leaves behind. */
    const fails: nat -> bool
    const torn: nat -> Option<Text>
    /** Something that is not a regular file stands at the destination. */
    const blocked: bool

    var files: Files
    var operations: nat
    var firstTest: bool
    var previousDestinationPresent: bool
    var destinationInstalled: bool
    var backupCreated: bool

    ghost const original: Files
    ghost const header: Text
    ghost var tests: seq<Text>
    /** Every state the file system has been in, the current one last. */
    ghost var history: seq<Files>
    /** Every operation so far, in order. */
    ghost var trace: seq<Operation>

    /** None of the operations from one number up to another fails. */
    ghost predicate NoFault(first: nat, last: nat) {
      forall n :: first <= n < last ==> !fails(n)
    }

    /** The operation with this number fails, or finds something at the destination that is no file. */
    ghost predicate Fails(operation: Operation, n: nat) {
      fails(n) || (blocked && operation == InspectDestination)
    }

    ghost predicate FailsAt(plan: seq<Operation>, i: nat, first: nat)
      requires i < |plan|
    {
      Fails(plan[i], first + i)
    }

    /** The planned operations were performed in order, up to the first that failed: all of them if none did. */
    ghost predicate Ran(
      before: seq<Operation>, first: nat, after: seq<Operation>, last: nat, plan: seq<Operation>, ok: bool)
    {
      && first <= last <= first + |plan|
      && after == before + plan[..last - first]
      && (forall i :: 0 <= i < last - first - 1 ==> !FailsAt(plan, i, first))
      && (ok ==> last == first + |plan| && (last > first ==> !FailsAt(plan, |plan| - 1, first)))
      && (!ok ==> first < last && FailsAt(plan, last - 1 - first, first))
    }

    lemma {:induction false} RanOne(before: seq<Operation>, n: nat, operation: Operation, ok: bool)
      requires ok <==> !Fails(operation, n)
      ensures Ran(before, n, before + [operation], n + 1, [operation], ok)
    {
      assert FailsAt([operation], 0, n) == Fails(operation, n);
    }

    lemma {:induction false} RanThen(
      t0: seq<Operation>, n0: nat, t1: seq<Operation>, n1: nat, t2: seq<Operation>, n2: nat,
      plan: seq<Operation>, next: seq<Operation>, ok: bool)
      requires Ran(t0, n0, t1, n1, plan, true) && Ran(t1, n1, t2, n2, next, ok)
      ensures Ran(t0, n0, t2, n2, plan + next, ok)
    {
      hide Fails;
      forall i | 0 <= i < |plan + next|
        ensures FailsAt(plan + next, i, n0)
                == if i < |plan| then FailsAt(plan, i, n0) else FailsAt(next, i - |plan|, n1)
      {
      }
      assert (plan + next)[..n2 - n0] == plan + next[..n2 - n1];
      assert plan[..n1 - n0] == plan;
    }

    lemma {:induction false} RanStops(
      t0: seq<Operation>, n0: nat, t1: seq<Operation>, n1: nat, plan: seq<Operation>, next: seq<Operation>)
      requires Ran(t0, n0, t1, n1, plan, false)
      ensures Ran(t0, n0, t1, n1, plan + next, false)
    {
      hide Fails;
      forall i | 0 <= i < |plan|
        ensures FailsAt(plan + next, i, n0) == FailsAt(plan, i, n0)
      {
      }
      assert (plan + next)[..n1 - n0] == plan[..n1 - n0];
    }

    /** The planned operations all succeeded exactly when none failed, whatever stood at the destination otherwise. */
    lemma {:induction false} RanCounts(
      t0: seq<Operation>, n0: nat, t1: seq<Operation>, n1: nat, plan: seq<Operation>, ok: bool)
      requires Ran(t0, n0, t1, n1, plan, ok)
      ensures InspectDestination !in plan ==> (ok <==> NoFault(n0, n1))
      ensures InspectDestination in plan ==> (ok <==> NoFault(n0, n1) && !blocked)
    {
      if ok {
        forall n | n0 <= n < n1
          ensures !fails(n)
        {
          assert !FailsAt(plan, n - n0, n0);
        }
        if InspectDestination in plan {
          var i :| 0 <= i < |plan| && plan[i] == InspectDestination;
          assert !FailsAt(plan, i, n0);
        }
      } else {
        assert plan[n1 - 1 - n0] in plan;
        assert FailsAt(plan, n1 - 1 - n0, n0);
      }
    }

    lemma {:induction false} RanWithin(
      t0: seq<Operation>, n0: nat, t1: seq<Operation>, n1: nat, plan: seq<Operation>, ok: bool)
      requires Ran(t0, n0, t1, n1, plan, ok)
      ensures n0 <= n1 && (ok ==> t1 == t0 + plan)
    {
      if ok {
        assert plan[..n1 - n0] == plan;
      }
    }

    lemma {:induction false} RanNothing(trace: seq<Operation>, n: nat)
      ensures Ran(trace, n, trace, n, [], true)
    {
    }

    ghost predicate Distinctness() {
      && destination != temporary && destination != backup && temporary != backup
      && (blocked ==> destination !in original)
    }

    /** Nothing but the three files of this report differs from how it was. */
    ghost predicate Elsewhere(state: Files) {
      forall p :: p != destination && p != temporary && p != backup ==>
        (p in state <==> p in original) && (p in state ==> state[p] == original[p])
    }

    /** No backup is left, unless a stale one of the same name was there and no report needed backing up. */
    ghost predicate NoBackup(state: Files) {
      backup in state ==> backup in original && destination !in original
    }

    ghost predicate At(state: Files, path: Path, content: Text) {
      path in state && state[path] == content
    }

    ghost predicate Untouched(state: Files) {
      && Elsewhere(state)
      && (destination in state <==> destination in original)
      && (destination in state ==> state[destination] == original[destination])
    }

    /** The old report is at the destination or in the backup, or the new one is at the destination. */
    ghost predicate Safe(state: Files, report: Text) {
      && Elsewhere(state)
      && (destination in original ==>
            || At(state, destination, original[destination])
            || At(state, backup, original[destination])
            || At(state, destination, report))
    }

    ghost predicate AllSafe(states: seq<Files>, report: Text) {
      forall i :: 0 <= i < |states| ==> Safe(states[i], report)
    }

    lemma {:induction false} OneMoreSafe(states: seq<Files>, state: Files, report: Text)
      ensures AllSafe(states + [state], report) <==> AllSafe(states, report) && Safe(state, report)
    {
      hide Safe;
      assert (states + [state])[|states|] == state;
      assert forall i :: 0 <= i < |states| ==> (states + [state])[i] == states[i];
    }

    ghost predicate AlwaysSafe(report: Text)
      reads this
    {
      history != [] && history[|history| - 1] == files && Safe(files, report) && AllSafe(history, report)
    }

    /** Between construction and `finish`: the report so far is in the temporary file. */
    ghost predicate Valid()
      reads this
    {
      && Distinctness()
      && OnlyTemporary()
      && At(files, temporary, header + Records(tests))
      && (firstTest <==> tests == [])
      && !previousDestinationPresent && !destinationInstalled && !backupCreated
    }

    ghost predicate AllUntouched(states: seq<Files>) {
      forall i :: 0 <= i < |states| ==> Untouched(states[i])
    }

    lemma {:induction false} OneMoreUntouched(states: seq<Files>, state: Files)
      ensures AllUntouched(states + [state]) <==> AllUntouched(states) && Untouched(state)
    {
      hide Untouched;
      assert (states + [state])[|states|] == state;
      assert forall i :: 0 <= i < |states| ==> (states + [state])[i] == states[i];
    }

    /** Everything except the temporary file is as it was, now and before. */
    ghost predicate OnlyTemporary()
      reads this`files, this`history
    {
      && history != [] && history[|history| - 1] == files
      && Untouched(files) && AllUntouched(history)
      && (backup in files ==> backup in original)
    }

    lemma {:induction false} StaysUntouched(before: Files, after: Files)
      requires Distinctness() && Untouched(before)
      requires after - {temporary} == before - {temporary}
      ensures Untouched(after) && (backup in after <==> backup in before)
    {
      assert forall p :: p != temporary ==> (p in before <==> p in before - {temporary});
      assert forall p :: p != temporary ==> (p in after <==> p in after - {temporary});
      assert forall p :: p != temporary && p in after ==> after[p] == (after - {temporary})[p];
      assert forall p :: p != temporary && p in before ==> before[p] == (before - {temporary})[p];
    }

    lemma {:induction false} RemovalIsUntouched(before: Files, path: Path)
      requires Distinctness() && Untouched(before) && (path == temporary || path == backup)
      ensures Untouched(before - {path})
    {
    }

    // ---------------------------------------------------------------- file operations

    /** Account for one more file operation, whose outcome is `next`. */
    method Become(next: Files, ghost operation: Operation)
      modifies this`files, this`history, this`operations, this`trace
      ensures files == next && history == old(history) + [next] && operations == old(operations) + 1
      ensures trace == old(trace) + [operation]
    {
      trace := trace + [operation];
      files := next;
      history := history + [next];
      operations := operations + 1;
    }

    /** Append to the open temporary file; a failing write may leave part of the text. */
    method Write(text: Text) returns (ok: bool)
      requires temporary in files
      modifies this`files, this`history, this`operations, this`trace
      ensures history == old(history) + [files]
      ensures Ran(old(trace), old(operations), trace, operations, [Append(text)], ok)
      ensures ok ==> files == old(files)[temporary := old(files)[temporary] + text]
      ensures !ok ==> temporary in files && files == old(files)[temporary := files[temporary]]
      ensures Distinctness() && old(OnlyTemporary()) ==> OnlyTemporary()
    {
      ok := !fails(operations);
      RanOne(trace, operations, Append(text), ok);
      var part := if ok then text else if torn(operations).Some? then torn(operations).value else "";
      var next := files[temporary := files[temporary] + part];
      if Distinctness() && OnlyTemporary() {
        StaysUntouched(files, next);
        OneMoreUntouched(history, next);
      }
      hide Untouched, AllUntouched;
      Become(next, Append(text));
    }

    method Sync(ghost operation: Operation) returns (ok: bool)
      requires operation != InspectDestination
      modifies this`files, this`history, this`operations, this`trace
      ensures files == old(files) && history == old(history) + [files]
      ensures Ran(old(trace), old(operations), trace, operations, [operation], ok)
    {
      ok := !fails(operations);
      RanOne(trace, operations, operation, ok);
      Become(files, operation);
    }

    method Inspect() returns (found: Found)
      requires blocked ==> destination !in files
      modifies this`files, this`history, this`operations, this`trace
      ensures files == old(files) && history == old(history) + [files]
      ensures Ran(
                old(trace), old(operations), trace, operations, [InspectDestination], found.Regular? || found.Absent?)
      ensures found.Regular? ==> destination in files
      ensures found.Absent? ==> destination !in files && !blocked
    {
      found :=
        if fails(operations) then Uninspectable
        else if destination in files then Regular
        else if blocked then Irregular
        else Absent;
      RanOne(trace, operations, InspectDestination, found.Regular? || found.Absent?);
      Become(files, InspectDestination);
    }

    /** Copy the destination to the backup; a failing copy may leave part of it. */
    method CopyToBackup() returns (ok: bool)
      requires destination in files
      modifies this`files, this`history, this`operations, this`trace
      ensures history == old(history) + [files]
      ensures Ran(old(trace), old(operations), trace, operations, [CopyToBackupFile], ok)
      ensures ok ==> files == old(files)[backup := old(files)[destination]]
      ensures !ok ==> files == old(files) || (backup in files && files == old(files)[backup := files[backup]])
    {
      ok := !fails(operations);
      RanOne(trace, operations, CopyToBackupFile, ok);
      if ok {
        Become(files[backup := files[destination]], CopyToBackupFile);
      } else if torn(operations).Some? {
        Become(files[backup := torn(operations).value], CopyToBackupFile);
      } else {
        Become(files, CopyToBackupFile);
      }
    }

    method Rename(from: Path, to: Path, ghost operation: Operation) returns (ok: bool)
      requires from in files && operation != InspectDestination
      modifies this`files, this`history, this`operations, this`trace
      ensures history == old(history) + [files]
      ensures Ran(old(trace), old(operations), trace, operations, [operation], ok)
      ensures ok ==> files == (old(files) - {from})[to := old(files)[from]]
      ensures !ok ==> files == old(files)
    {
      ok := !fails(operations) && from in files;
      RanOne(trace, operations, operation, ok);
      Become(if ok then (files - {from})[to := files[from]] else files, operation);
    }

    method Remove(path: Path, ghost operation: Operation) returns (removal: Removal)
      requires operation != InspectDestination
      modifies this`files, this`history, this`operations, this`trace
      ensures history == old(history) + [files]
      ensures Ran(old(trace), old(operations), trace, operations, [operation], !removal.NotRemoved?)
      ensures removal.Removed? ==> files == old(files) - {path}
      ensures removal.NotFound? ==> path !in files && files == old(files)
      ensures removal.NotRemoved? ==> files == old(files)
    {
      removal := if fails(operations) then NotRemoved else if path in files then Removed else NotFound;
      RanOne(trace, operations, operation, !removal.NotRemoved?);
      Become(if removal.Removed? then files - {path} else files, operation);
    }

    // ---------------------------------------------------------------- starting

    /** A writer for the destination; no file has been touched yet. */
    constructor (
      destination: Path, process: string, sequence: string, blocked: bool, files: Files,
      fails: nat -> bool, torn: nat -> Option<Text>, hostPlatform: Text, traceId: Text)
      requires blocked ==> destination !in files
      ensures this.destination == destination && this.original == files && this.files == files && history == [files]
      ensures header == Header(hostPlatform, traceId) && tests == []
      ensures this.fails == fails && this.blocked == blocked && operations == 0 && trace == []
      ensures temporary == TemporaryName(destination, process, sequence)
      ensures backup == BackupName(destination, process, sequence)
      ensures Distinctness() && Started()
    {
      NamesDiffer(destination, process, sequence);
      this.destination, this.blocked := destination, blocked;
      temporary, backup := TemporaryName(destination, process, sequence), BackupName(destination, process, sequence);
      this.fails, this.torn, this.files := fails, torn, files;
      operations := 0;
      firstTest, previousDestinationPresent, destinationInstalled, backupCreated := true, false, false, false;
      original, header, tests, history, trace := files, Header(hostPlatform, traceId), [], [files], [];
    }

    /** Nothing has happened since construction. */
    ghost predicate Started()
      reads this
    {
      && files == original && history == [files] && tests == []
      && firstTest && !previousDestinationPresent && !destinationInstalled && !backupCreated
    }

    /** Create the temporary file, which must not exist yet. */
    method Create() returns (ok: bool)
      requires Distinctness() && Started()
      modifies this`files, this`history, this`operations, this`trace
      ensures OnlyTemporary()
      ensures ok <==> !fails(old(operations)) && temporary !in original
      ensures operations == old(operations) + 1 && trace == old(trace) + [CreateTemporary]
      ensures !ok ==> files == old(files)
      ensures ok ==> temporary in files && files[temporary] == ""
    {
      assert Untouched(files) && AllUntouched([files]);
      hide Untouched, AllUntouched;
      ok := !fails(operations) && temporary !in files;
      var next := if ok then files[temporary := ""] else files;
      StaysUntouched(files, files[temporary := ""]);
      OneMoreUntouched([files], next);
      Become(next, CreateTemporary);
    }

    /** Remove the temporary file again. */
    method Abandon() returns (cleaned: bool)
      requires Distinctness() && OnlyTemporary()
      modifies this`files, this`history, this`operations, this`trace
      ensures OnlyTemporary()
      ensures trace == old(trace) + [RemoveTemporary] && operations == old(operations) + 1
      ensures cleaned <==> !fails(old(operations))
      ensures cleaned ==> temporary !in files
    {
      hide Untouched, AllUntouched;
      StaysUntouched(files, files - {temporary});
      OneMoreUntouched(history, files - {temporary});
      OneMoreUntouched(history, files);
      ghost var before, n := trace, operations;
      var removal := Remove(temporary, RemoveTemporary);
      RanCounts(before, n, trace, operations, [RemoveTemporary], !removal.NotRemoved?);
      cleaned := !removal.NotRemoved?;
    }

    /** Create the temporary file and write the header; on failure remove the file again. */
    method Open(hostPlatform: Text, traceId: Text) returns (ok: bool, cleaned: bool)
      requires Distinctness() && Started()
      requires header == Header(hostPlatform, traceId)
      modifies this`files, this`history, this`operations, this`trace
      ensures ok ==> Valid() && tests == []
      ensures ok ==> trace == old(trace) + ([CreateTemporary] + Appends(HeaderParts(hostPlatform, traceId)))
      ensures old(operations) <= operations
      ensures ok <==> NoFault(old(operations), operations) && temporary !in original
      ensures !ok ==> OnlyTemporary()
      ensures ok ==> cleaned
      ensures !ok && cleaned && temporary in files ==> temporary in original
    {
      hide OnlyTemporary, Distinctness;
      cleaned := true;
      ok := Create();
      if !ok {
        return;
      }
      ghost var created, n := trace, operations;
      ok := WriteAll(HeaderParts(hostPlatform, traceId));
      RanCounts(created, n, trace, operations, Appends(HeaderParts(hostPlatform, traceId)), ok);
      if !ok {
        cleaned := Abandon();
        return;
      }
      HeaderIsJoined(hostPlatform, traceId);
    }

    method WriteAll(texts: seq<Text>) returns (ok: bool)
      requires Distinctness() && OnlyTemporary() && temporary in files
      modifies this`files, this`history, this`operations, this`trace
      ensures OnlyTemporary() && temporary in files
      ensures Ran(old(trace), old(operations), trace, operations, Appends(texts), ok)
      ensures ok ==> files[temporary] == old(files)[temporary] + Joined(texts)
    {
      hide OnlyTemporary, Distinctness, Ran, Appends;
      RanNothing(trace, operations);
      assert texts[..0] == [];
      NothingAppended();
      for i := 0 to |texts|
        invariant OnlyTemporary() && temporary in files
        invariant Ran(old(trace), old(operations), trace, operations, Appends(texts[..i]), true)
        invariant files[temporary] == old(files)[temporary] + Joined(texts[..i])
      {
        ghost var before, n := trace, operations;
        ok := Write(texts[i]);
        RanThen(
          old(trace), old(operations), before, n, trace, operations, Appends(texts[..i]), [Append(texts[i])], ok);
        AppendsSplit(texts, i);
        if !ok {
          RanStops(
            old(trace), old(operations), trace, operations, Appends(texts[..i + 1]), Appends(texts[i + 1..]));
          return;
        }
        JoinedPush(texts[..i], texts[i]);
        assert texts[..i + 1] == texts[..i] + [texts[i]];
      }
      assert texts[..|texts|] == texts;
      ok := true;
    }

    // ---------------------------------------------------------------- writing records

    /** Append one record. A failure leaves a torn temporary file, and nothing else. */
    method WriteTest(value: Text) returns (ok: bool)
      requires Valid()
      modifies this`files, this`history, this`operations, this`trace, this`firstTest, this`tests
      ensures Ran(
                old(trace), old(operations), trace, operations,
                (if old(tests) == [] then [] else [Append(",")]) + [Append(value)], ok)
      ensures ok ==> Valid() && tests == old(tests) + [value]
      ensures !ok ==> OnlyTemporary() && tests == old(tests)
    {
      hide OnlyTemporary, Distinctness, Ran;
      RanNothing(trace, operations);
      if !firstTest {
        ok := Write(",");
        if !ok {
          RanStops(old(trace), old(operations), trace, operations, [Append(",")], [Append(value)]);
          return;
        }
      }
      ghost var before, n := trace, operations;
      ok := Write(value);
      RanThen(
        old(trace), old(operations), before, n, trace, operations,
        if old(tests) == [] then [] else [Append(",")], [Append(value)], ok);
      if !ok {
        return;
      }
      RecordsPush(tests, value);
      assert files[temporary] == header + Records(tests + [value]);
      firstTest := false;
      tests := tests + [value];
    }

    /** Append records until one cannot be written. */
    method WriteTests(values: seq<Text>) returns (ok: bool)
      requires Valid() && tests == []
      modifies this`files, this`history, this`operations, this`trace, this`firstTest, this`tests
      ensures Ran(old(trace), old(operations), trace, operations, RecordPlan(values), ok)
      ensures ok ==> Valid() && tests == values
      ensures !ok ==> OnlyTemporary()
    {
      hide Valid, OnlyTemporary, Distinctness, Ran, RecordPlan;
      RanNothing(trace, operations);
      NothingPlanned();
      assert values[..0] == [];
      for i := 0 to |values|
        invariant Valid() && tests == values[..i]
        invariant Ran(old(trace), old(operations), trace, operations, RecordPlan(values[..i]), true)
      {
        ghost var before, n := trace, operations;
        ok := WriteTest(values[i]);
        RecordPlanPush(values[..i], values[i]);
        assert values[..i + 1] == values[..i] + [values[i]];
        RanThen(
          old(trace), old(operations), before, n, trace, operations, RecordPlan(values[..i]),
          (if values[..i] == [] then [] else [Append(",")]) + [Append(values[i])], ok);
        if !ok {
          RecordPlanGrows(values, i + 1);
          ghost var rest := RecordPlan(values)[|RecordPlan(values[..i + 1])|..];
          RanStops(old(trace), old(operations), trace, operations, RecordPlan(values[..i + 1]), rest);
          assert RecordPlan(values[..i + 1]) + rest == RecordPlan(values);
          return;
        }
      }
      assert values[..|values|] == values;
      ok := true;
    }

    // ---------------------------------------------------------------- publishing

    ghost function FullReport(): Text
      reads this
    {
      header + Records(tests) + FOOTER
    }

    /** The destination is as it was before this report. */
    ghost predicate Restored(state: Files) {
      && (destination in state <==> destination in original)
      && (destination in state ==> state[destination] == original[destination])
    }

    /** Where publishing stands: before the rename nothing is lost, after it the backup holds the old report. */
    ghost predicate Publishing(report: Text)
      reads this
    {
      && AlwaysSafe(report)
      && (backupCreated ==> previousDestinationPresent)
      && (!destinationInstalled ==> Restored(files))
      && (backupCreated && destination in original ==> At(files, backup, original[destination]))
      && (destinationInstalled ==>
            && At(files, destination, report) && temporary !in files
            && (destination in original <==> previousDestinationPresent)
            && (previousDestinationPresent <==> backupCreated)
            && (!backupCreated ==> NoBackup(files)))
    }

    lemma {:induction false} StaysSafe(before: Files, after: Files, report: Text)
      requires Distinctness() && Elsewhere(before)
      requires after - {destination, temporary, backup} == before - {destination, temporary, backup}
      ensures Elsewhere(after)
    {
      var ours := {destination, temporary, backup};
      forall p | p !in ours
        ensures (p in after <==> p in before) && (p in after ==> after[p] == before[p])
      {
        assert p in after <==> p in after - ours;
        assert p in before <==> p in before - ours;
        assert p in after ==> after[p] == (after - ours)[p];
        assert p in before ==> before[p] == (before - ours)[p];
      }
    }

    /** As long as only the temporary file was touched every state was safe. */
    lemma {:induction false} UntouchedIsSafe(report: Text)
      requires OnlyTemporary()
      ensures AlwaysSafe(report) && Elsewhere(files) && Restored(files)
      ensures backup in files ==> backup in original
    {
      hide Elsewhere;
      assert Untouched(history[|history| - 1]);
    }

    /** Copy the report at the destination to the backup. */
    method BackUp(ghost report: Text) returns (ok: bool)
      requires Distinctness() && Publishing(report) && Restored(files) && destination in files
      requires !previousDestinationPresent && !destinationInstalled && !backupCreated
      modifies this`files, this`history, this`operations, this`trace
      modifies this`previousDestinationPresent, this`backupCreated
      ensures Publishing(report)
      ensures temporary in old(files) ==> temporary in files && files[temporary] == old(files)[temporary]
      ensures Ran(old(trace), old(operations), trace, operations, [CopyToBackupFile, SyncBackup], ok)
      ensures !destinationInstalled
      ensures ok ==> previousDestinationPresent && backupCreated
    {
      hide Elsewhere, Untouched, AllSafe, Ran;
      ghost var past, before := history, files;
      ok := CopyToBackup();
      StaysSafe(before, files, report);
      OneMoreSafe(past, files, report);
      assert [CopyToBackupFile] + [SyncBackup] == [CopyToBackupFile, SyncBackup];
      if !ok {
        RanStops(old(trace), old(operations), trace, operations, [CopyToBackupFile], [SyncBackup]);
        return;
      }
      past := history;
      ghost var done, n := trace, operations;
      ok := Sync(SyncBackup);
      RanThen(old(trace), old(operations), done, n, trace, operations, [CopyToBackupFile], [SyncBackup], ok);
      OneMoreSafe(past, files, report);
      if ok {
        previousDestinationPresent := true;
        backupCreated := true;
      }
    }

    /** Back up an existing report before it is replaced. */
    method SnapshotDestination(ghost report: Text) returns (ok: bool)
      requires Distinctness() && OnlyTemporary()
      requires !previousDestinationPresent && !destinationInstalled && !backupCreated
      modifies this`files, this`history, this`operations, this`trace
      modifies this`previousDestinationPresent, this`backupCreated
      ensures Publishing(report) && !destinationInstalled
      ensures Ran(old(trace), old(operations), trace, operations, SnapshotPlan(destination in original), ok)
      ensures temporary in old(files) ==> temporary in files && files[temporary] == old(files)[temporary]
      ensures ok ==>
                && (destination in original <==> previousDestinationPresent)
                && (previousDestinationPresent <==> backupCreated)
                && (!backupCreated ==> NoBackup(files))
    {
      assert Untouched(files);
      UntouchedIsSafe(report);
      hide Elsewhere, Untouched, AllSafe, OnlyTemporary, Ran;
      ghost var past := history;
      var found := Inspect();
      OneMoreSafe(past, files, report);
      ghost var before, n := trace, operations;
      assert [InspectDestination] + [CopyToBackupFile, SyncBackup]
          == [InspectDestination, CopyToBackupFile, SyncBackup];
      match found {
        case Regular =>
          ok := BackUp(report);
          RanThen(
            old(trace), old(operations), before, n, trace, operations, [InspectDestination],
            [CopyToBackupFile, SyncBackup], ok);
        case Absent => ok := true;
        case Irregular =>
          ok := false;
        case Uninspectable =>
          ok := false;
      }
      if !found.Regular? && !found.Absent? {
        RanStops(
          old(trace), old(operations), trace, operations, [InspectDestination], [CopyToBackupFile, SyncBackup]);
      }
    }

    /** Footer, sync, backup, rename into place, sync, and drop the backup. */
    method FinishInner() returns (ok: bool)
      requires Valid()
      modifies this`files, this`history, this`operations, this`trace
      modifies this`previousDestinationPresent, this`destinationInstalled, this`backupCreated
      ensures AlwaysSafe(FullReport())
      ensures Ran(old(trace), old(operations), trace, operations, FinishPlan(destination in original), ok)
      ensures !ok ==> Publishing(FullReport()) && trace != []
      ensures !ok ==> (destinationInstalled <==> AfterRename(trace[|trace| - 1]))
      ensures ok ==> At(files, destination, FullReport()) && temporary !in files && NoBackup(files)
    {
      hide Elsewhere, Untouched, Ran, AllSafe, OnlyTemporary;
      ghost var report := FullReport();
      ghost var previous := destination in original;
      UntouchedIsSafe(report);
      ok := Complete(report);
      UntouchedIsSafe(report);
      if !ok {
        RanStops(
          old(trace), old(operations), trace, operations, [Append(FOOTER), SyncTemporary],
          SnapshotPlan(previous) + InstallPlan(previous));
        LastOfPlan(old(trace), old(operations), trace, operations, [Append(FOOTER), SyncTemporary]);
        PlanIsJoined(previous);
        return;
      }
      ghost var written, n := trace, operations;
      ok := SnapshotDestination(report);
      RanThen(
        old(trace), old(operations), written, n, trace, operations, [Append(FOOTER), SyncTemporary],
        SnapshotPlan(previous), ok);
      if !ok {
        RanStops(
          old(trace), old(operations), trace, operations,
          [Append(FOOTER), SyncTemporary] + SnapshotPlan(previous), InstallPlan(previous));
        LastOfPlan(written, n, trace, operations, SnapshotPlan(previous));
        PlanIsJoined(previous);
        return;
      }
      ghost var taken, m := trace, operations;
      ok := Install(report);
      RanThen(
        old(trace), old(operations), taken, m, trace, operations,
        [Append(FOOTER), SyncTemporary] + SnapshotPlan(previous), InstallPlan(previous), ok);
      PlanIsJoined(previous);
    }

    /** Write the footer and put the whole report on disk. */
    method Complete(ghost report: Text) returns (ok: bool)
      requires Distinctness() && OnlyTemporary() && temporary in files
      modifies this`files, this`history, this`operations, this`trace
      ensures OnlyTemporary() && temporary in files
      ensures Ran(old(trace), old(operations), trace, operations, [Append(FOOTER), SyncTemporary], ok)
      ensures ok ==> files[temporary] == old(files)[temporary] + FOOTER
    {
      hide Distinctness, Untouched, AllUntouched, Ran;
      ok := Write(FOOTER);
      assert [Append(FOOTER)] + [SyncTemporary] == [Append(FOOTER), SyncTemporary];
      if !ok {
        RanStops(old(trace), old(operations), trace, operations, [Append(FOOTER)], [SyncTemporary]);
        return;
      }
      ghost var written, n, states := trace, operations, history;
      ok := Sync(SyncTemporary);
      OneMoreUntouched(states, files);
      RanThen(old(trace), old(operations), written, n, trace, operations, [Append(FOOTER)], [SyncTemporary], ok);
    }

    /** What was done last was one of the planned operations. */
    lemma {:induction false} LastOfPlan(
      t0: seq<Operation>, n0: nat, t1: seq<Operation>, n1: nat, plan: seq<Operation>)
      requires Ran(t0, n0, t1, n1, plan, false)
      ensures t1 != [] && t1[|t1| - 1] in plan
    {
    }

    /** A synchronisation changes nothing that can be seen. */
    method SyncSafely(ghost operation: Operation, ghost report: Text) returns (ok: bool)
      requires operation != InspectDestination && Publishing(report)
      modifies this`files, this`history, this`operations, this`trace
      ensures Publishing(report) && files == old(files)
      ensures Ran(old(trace), old(operations), trace, operations, [operation], ok)
    {
      hide Safe, AllSafe, Ran;
      ghost var past := history;
      ok := Sync(operation);
      OneMoreSafe(past, files, report);
    }

    /** Everything is ready for the rename: the report is complete, and an old one is backed up. */
    ghost predicate ReadyToInstall(report: Text)
      reads this
    {
      && Publishing(report) && !destinationInstalled
      && At(files, temporary, report)
      && (destination in original <==> previousDestinationPresent)
      && (previousDestinationPresent <==> backupCreated)
      && (!backupCreated ==> NoBackup(files))
    }

    method PutInPlace(ghost report: Text) returns (ok: bool)
      requires Distinctness() && ReadyToInstall(report)
      modifies this`files, this`history, this`operations, this`trace, this`destinationInstalled
      ensures Publishing(report) && (destinationInstalled <==> ok)
      ensures Ran(old(trace), old(operations), trace, operations, [RenameIntoPlace], ok)
    {
      hide Elsewhere, Untouched, AllSafe, Ran;
      StaysSafe(files, (files - {temporary})[destination := report], report);
      ghost var past := history;
      ok := Rename(temporary, destination, RenameIntoPlace);
      OneMoreSafe(past, files, report);
      destinationInstalled := ok;
    }

    /** Rename the finished report into place and drop the backup. */
    method Install(ghost report: Text) returns (ok: bool)
      requires Distinctness() && ReadyToInstall(report)
      modifies this`files, this`history, this`operations, this`trace, this`destinationInstalled, this`backupCreated
      ensures AlwaysSafe(report)
      ensures Ran(old(trace), old(operations), trace, operations, InstallPlan(destination in original), ok)
      ensures !ok ==> Publishing(report) && trace != []
      ensures !ok ==> (destinationInstalled <==> AfterRename(trace[|trace| - 1]))
      ensures ok ==> At(files, destination, report) && temporary !in files && NoBackup(files)
    {
      hide Publishing, AlwaysSafe, Ran, Distinctness;
      PublishingIsSafe(report);
      ghost var next := if destination in original then [RemoveBackupFile] else [];
      InstallIsJoined(destination in original);
      ok := PutInPlace(report);
      if !ok {
        LastOfPlan(old(trace), old(operations), trace, operations, [RenameIntoPlace]);
        RanStops(old(trace), old(operations), trace, operations, [RenameIntoPlace], [SyncDirectory] + next);
        PublishingIsSafe(report);
        return;
      }
      ghost var renamed, n := trace, operations;
      ok := SyncSafely(SyncDirectory, report);
      PublishingIsSafe(report);
      if !ok {
        LastOfPlan(renamed, n, trace, operations, [SyncDirectory]);
        RanStops(renamed, n, trace, operations, [SyncDirectory], next);
        RanThen(
          old(trace), old(operations), renamed, n, trace, operations, [RenameIntoPlace], [SyncDirectory] + next, ok);
        return;
      }
      ghost var synced, m := trace, operations;
      ok := RemoveBackup(report);
      RanThen(renamed, n, synced, m, trace, operations, [SyncDirectory], next, ok);
      RanThen(
        old(trace), old(operations), renamed, n, trace, operations, [RenameIntoPlace], [SyncDirectory] + next, ok);
      if !ok {
        LastOfPlan(synced, m, trace, operations, next);
      }
    }

    lemma {:induction false} SafeElsewhere(report: Text)
      ensures AlwaysSafe(report) ==> Elsewhere(files)
    {
      hide Elsewhere;
    }

    lemma {:induction false} PublishingIsSafe(report: Text)
      ensures Publishing(report) ==> AlwaysSafe(report)
    {
    }

    method RemoveBackup(ghost report: Text) returns (ok: bool)
      requires Distinctness() && Publishing(report) && destinationInstalled
      modifies this`files, this`history, this`operations, this`trace, this`backupCreated
      ensures AlwaysSafe(report)
      ensures Ran(
                old(trace), old(operations), trace, operations,
                if destination in original then [RemoveBackupFile] else [], ok)
      ensures ok ==> At(files, destination, report) && temporary !in files && NoBackup(files) && !backupCreated
      ensures !ok ==> Publishing(report)
    {
      hide Elsewhere, Untouched, AllSafe, Ran;
      if !backupCreated {
        RanNothing(trace, operations);
        return true;
      }
      StaysSafe(files, files - {backup}, report);
      ghost var past := history;
      var removal := Remove(backup, RemoveBackupFile);
      OneMoreSafe(past, files, report);
      ok := removal.Removed?;
      if ok {
        backupCreated := false;
      }
    }

    /** Where the old report is to be found when the rollback itself failed. */
    function RecoveryPath(): Path
      reads this
    {
      if backupCreated then backup else destination
    }

    /** Move the backup back to the destination, which is empty or holds the new report. */
    method MoveBackupBack(ghost report: Text) returns (ok: bool)
      requires Distinctness() && AlwaysSafe(report)
      requires backupCreated && destination in original && At(files, backup, original[destination])
      modifies this`files, this`history, this`operations, this`trace, this`backupCreated
      ensures AlwaysSafe(report) && At(files, RecoveryPath(), original[destination])
      ensures Ran(
                old(trace), old(operations), trace, operations, [RestoreBackup] + [SyncDestination], ok)
      ensures ok ==> Restored(files) && !backupCreated
      ensures temporary in files ==> temporary in old(files)
    {
      hide Elsewhere, AllSafe, Ran;
      StaysSafe(files, (files - {backup})[destination := files[backup]], report);
      ghost var past := history;
      ok := Rename(backup, destination, RestoreBackup);
      OneMoreSafe(past, files, report);
      if !ok {
        RanStops(old(trace), old(operations), trace, operations, [RestoreBackup], [SyncDestination]);
        return;
      }
      backupCreated := false;
      past := history;
      ghost var renamed, n := trace, operations;
      ok := Sync(SyncDestination);
      OneMoreSafe(past, files, report);
      RanThen(old(trace), old(operations), renamed, n, trace, operations, [RestoreBackup], [SyncDestination], ok);
    }

    /** Put the old report back in place of the new one. */
    method RestorePrevious(ghost report: Text) returns (ok: bool)
      requires Distinctness() && Publishing(report)
      requires destinationInstalled && backupCreated
      modifies this`files, this`history, this`operations, this`trace, this`backupCreated
      ensures AlwaysSafe(report)
      ensures At(files, RecoveryPath(), original[destination])
      ensures Ran(
                old(trace), old(operations), trace, operations, [RemoveDestination, RestoreBackup, SyncDestination],
                ok)
      ensures ok ==> Restored(files) && !backupCreated
      ensures temporary in files ==> temporary in old(files)
    {
      hide Elsewhere, Untouched, AllSafe, Ran, Restored;
      RestoreIsJoined();
      StaysSafe(files, files - {destination}, report);
      ghost var past := history;
      var removal := Remove(destination, RemoveDestination);
      OneMoreSafe(past, files, report);
      if removal.NotRemoved? {
        RanStops(
          old(trace), old(operations), trace, operations, [RemoveDestination], [RestoreBackup] + [SyncDestination]);
        return false;
      }
      ghost var removed, n := trace, operations;
      ok := MoveBackupBack(report);
      RanThen(
        old(trace), old(operations), removed, n, trace, operations, [RemoveDestination],
        [RestoreBackup] + [SyncDestination], ok);
    }

    /** Undo the rename: put the old report back, or remove the new one if there was none. */
    method Rollback(ghost report: Text) returns (ok: bool)
      requires Distinctness() && Publishing(report)
      modifies this`files, this`history, this`operations, this`trace, this`destinationInstalled, this`backupCreated
      ensures AlwaysSafe(report)
      ensures Ran(
                old(trace), old(operations), trace, operations,
                if old(destinationInstalled) then RollbackPlan(destination in original) else [], ok)
      ensures ok ==> Restored(files) && !destinationInstalled
      ensures !ok && destination in original ==> At(files, RecoveryPath(), original[destination])
      ensures temporary in files ==> temporary in old(files)
    {
      hide Elsewhere, Untouched, AllSafe, Ran;
      if !destinationInstalled {
        RanNothing(trace, operations);
        return true;
      }
      ok := TakeBack(report);
      ghost var done := if destination in original then [RemoveDestination, RestoreBackup, SyncDestination]
                        else [RemoveDestination];
      if !ok {
        RanStops(old(trace), old(operations), trace, operations, done, [SyncDirectory]);
        return;
      }
      ghost var past, back, n := history, trace, operations;
      ok := Sync(SyncDirectory);
      OneMoreSafe(past, files, report);
      RanThen(old(trace), old(operations), back, n, trace, operations, done, [SyncDirectory], ok);
      if !ok {
        return;
      }
      destinationInstalled := false;
    }

    /** Remove the new report, and put the old one in its place if there was one. */
    method TakeBack(ghost report: Text) returns (ok: bool)
      requires Distinctness() && Publishing(report) && destinationInstalled
      modifies this`files, this`history, this`operations, this`trace, this`backupCreated
      ensures AlwaysSafe(report)
      ensures Ran(
                old(trace), old(operations), trace, operations,
                if destination in original then [RemoveDestination, RestoreBackup, SyncDestination]
                else [RemoveDestination], ok)
      ensures ok ==> Restored(files)
      ensures destination in original ==> At(files, RecoveryPath(), original[destination])
      ensures temporary in files ==> temporary in old(files)
    {
      hide Elsewhere, Untouched, AllSafe, Ran;
      if previousDestinationPresent {
        ok := RestorePrevious(report);
      } else {
        StaysSafe(files, files - {destination}, report);
        ghost var past := history;
        var removal := Remove(destination, RemoveDestination);
        OneMoreSafe(past, files, report);
        ok := !removal.NotRemoved?;
      }
    }

    lemma {:induction false} KeepsOnlyTemporary(state: Files, states: seq<Files>)
      requires Distinctness()
      ensures AllUntouched(states) && Untouched(state) ==>
                && Untouched(state - {temporary}) && AllUntouched(states + [state - {temporary}])
                && Untouched(state - {backup}) && AllUntouched(states + [state - {backup}])
                && AllUntouched(states + [state])
    {
      hide Untouched, AllUntouched;
      if Untouched(state) {
        RemovalIsUntouched(state, temporary);
        RemovalIsUntouched(state, backup);
      }
      OneMoreUntouched(states, state);
      OneMoreUntouched(states, state - {temporary});
      OneMoreUntouched(states, state - {backup});
    }

    /** Remove a file that the report does not need any more. */
    method Discard(path: Path, ghost operation: Operation, ghost report: Text) returns (ok: bool)
      requires Distinctness() && AlwaysSafe(report) && operation != InspectDestination
      requires path == temporary || (path == backup && Restored(files))
      modifies this`files, this`history, this`operations, this`trace
      ensures AlwaysSafe(report)
      ensures files == old(files) || files == old(files) - {path}
      ensures ok ==> path !in files
      ensures Ran(old(trace), old(operations), trace, operations, [operation], ok)
      ensures old(OnlyTemporary()) ==> OnlyTemporary()
    {
      hide Elsewhere, Untouched, AllSafe, AllUntouched, Ran;
      StaysSafe(files, files - {path}, report);
      ghost var past := history;
      KeepsOnlyTemporary(files, history);
      var removal := Remove(path, operation);
      OneMoreSafe(past, files, report);
      ok := !removal.NotRemoved?;
    }

    lemma {:induction false} RanOnce(
      t0: seq<Operation>, n0: nat, t1: seq<Operation>, n1: nat, operation: Operation, ok: bool)
      requires Ran(t0, n0, t1, n1, [operation], ok)
      ensures n1 == n0 + 1 && t1 == t0 + [operation]
    {
      assert [operation][..1] == [operation];
    }

    /** Remove the temporary file, and the backup unless it is kept for recovery. */
    method Cleanup(preserveRecovery: bool, ghost report: Text) returns (ok: bool)
      requires Distinctness() && AlwaysSafe(report)
      requires preserveRecovery || Restored(files)
      modifies this`files, this`history, this`operations, this`trace
      ensures AlwaysSafe(report)
      ensures destination in files <==> destination in old(files)
      ensures destination in files ==> files[destination] == old(files)[destination]
      ensures preserveRecovery ==> (backup in files <==> backup in old(files))
      ensures preserveRecovery && backup in files ==> files[backup] == old(files)[backup]
      ensures trace == old(trace) + CleanupPlan(preserveRecovery)
      ensures operations == old(operations) + |CleanupPlan(preserveRecovery)|
      ensures ok <==> NoFault(old(operations), operations)
      ensures ok ==> temporary !in files && (!preserveRecovery ==> backup !in files)
      ensures old(OnlyTemporary()) ==> OnlyTemporary()
    {
      hide AlwaysSafe, OnlyTemporary, Ran;
      ghost var before, n := trace, operations;
      ok := Discard(temporary, RemoveTemporary, report);
      RanCounts(before, n, trace, operations, [RemoveTemporary], ok);
      RanOnce(before, n, trace, operations, RemoveTemporary, ok);
      if !preserveRecovery {
        ghost var between, m := trace, operations;
        var removed := Discard(backup, RemoveBackupFile, report);
        RanCounts(between, m, trace, operations, [RemoveBackupFile], removed);
        RanOnce(between, m, trace, operations, RemoveBackupFile, removed);
        ok := ok && removed;
      }
    }

    /** Publishing broke off, and the rename was undone if it had happened, as far as that went. */
    ghost predicate GaveUp(
      before: seq<Operation>, first: nat, t: seq<Operation>, n: nat, u: seq<Operation>, m: nat,
      recovery: Option<Path>)
    {
      && Ran(before, first, t, n, FinishPlan(destination in original), false)
      && Ran(
           t, n, u, m, if t != [] && AfterRename(t[|t| - 1]) then RollbackPlan(destination in original) else [],
           recovery.None?)
    }

    /**
     * Publish the report. On success the destination holds all of it and no other file is left.
     * On failure the old report is back at the destination, or else at the path that is reported
     * for recovery. At no time in between is there neither the old report nor the new one. It fails
     * only if an operation does, or if the destination is no file, and then undoes the rename if
     * that had happened.
     */
    method Finish() returns (ok: bool, recovery: Option<Path>, cleaned: bool)
      requires Valid()
      modifies this`files, this`history, this`operations, this`trace
      modifies this`previousDestinationPresent, this`destinationInstalled, this`backupCreated
      ensures AlwaysSafe(FullReport())
      ensures Elsewhere(files)
      ensures old(operations) <= operations && (ok <==> NoFault(old(operations), operations) && !blocked)
      ensures ok ==> trace == old(trace) + FinishPlan(destination in original)
      ensures !ok ==>
                exists t: seq<Operation>, n: nat, u: seq<Operation>, m: nat ::
                  && GaveUp(old(trace), old(operations), t, n, u, m, recovery)
                  && trace == u + CleanupPlan(recovery.Some?)
                  && (cleaned <==> NoFault(m, operations))
      ensures ok ==> recovery.None? && At(files, destination, FullReport()) && temporary !in files && NoBackup(files)
      ensures ok ==> cleaned
      ensures !ok && recovery.None? ==> Restored(files)
      ensures !ok && recovery.Some? && destination in original ==> At(files, recovery.value, original[destination])
      ensures !ok && cleaned ==> temporary !in files && (recovery.None? ==> backup !in files)
    {
      hide Elsewhere, Safe, AllSafe, Untouched, Ran, OnlyTemporary, FinishPlan, RollbackPlan, AfterRename;
      PlanInspects(destination in original);
      recovery, cleaned := None, true;
      ghost var report, previous := FullReport(), destination in original;
      ok := FinishInner();
      RanCounts(old(trace), old(operations), trace, operations, FinishPlan(previous), ok);
      RanWithin(old(trace), old(operations), trace, operations, FinishPlan(previous), ok);
      if ok {
        SafeElsewhere(report);
        return;
      }
      ghost var t, n := trace, operations;
      var restored := Rollback(report);
      RanWithin(t, n, trace, operations, if AfterRename(t[|t| - 1]) then RollbackPlan(previous) else [], restored);
      ghost var u, m := trace, operations;
      if !restored {
        recovery := Some(RecoveryPath());
      }
      assert GaveUp(old(trace), old(operations), t, n, u, m, recovery);
      cleaned := Cleanup(!restored, report);
      assert !NoFault(old(operations), n) || blocked;
      SafeElsewhere(report);
    }
  }

  /**
   * The life of one report, as the reporter drives it: a writer that fails while records are
   * written is dropped after cleaning up, and whatever happens the old report survives until the
   * complete new one has replaced it. The report is published exactly if no operation fails, the
   * destination is no directory or the like, and the name of the temporary file is free.
   */
  method Publish(writer: CiTestReportWriter, hostPlatform: Text, traceId: Text, values: seq<Text>)
    returns (published: bool, recovery: Option<Path>, cleaned: bool, ghost begun: bool)
    requires writer.Distinctness() && writer.Started()
    requires writer.header == Header(hostPlatform, traceId)
    modifies writer
    ensures writer.AlwaysSafe(Report(hostPlatform, traceId, values))
    ensures old(writer.operations) <= writer.operations
    ensures published <==>
            && writer.NoFault(old(writer.operations), writer.operations)
            && !writer.blocked && writer.temporary !in writer.original
    ensures published ==>
              && writer.At(writer.files, writer.destination, Report(hostPlatform, traceId, values))
              && writer.temporary !in writer.files && writer.NoBackup(writer.files)
              && writer.trace
                 == old(writer.trace) + ([CreateTemporary] + Appends(HeaderParts(hostPlatform, traceId)))
                    + RecordPlan(values) + FinishPlan(writer.destination in writer.original)
    ensures !published && recovery.None? ==> writer.Restored(writer.files)
    ensures !published && recovery.Some? && writer.destination in writer.original ==>
              writer.At(writer.files, recovery.value, writer.original[writer.destination])
    ensures published ==> cleaned
    ensures !published && cleaned ==>
              && (writer.temporary in writer.files ==> !begun && writer.temporary in writer.original)
              && (writer.backup in writer.files ==> recovery.Some? || (!begun && writer.backup in writer.original))
  {
    recovery := None;
    hide CiTestReportWriter.OnlyTemporary, CiTestReportWriter.Distinctness, CiTestReportWriter.Ran;
    published, cleaned := writer.Open(hostPlatform, traceId);
    begun := published;
    if !published {
      writer.UntouchedIsSafe(Report(hostPlatform, traceId, values));
      return;
    }
    ghost var started, n := writer.trace, writer.operations;
    published := writer.WriteTests(values);
    RecordPlanPush(values, "");
    writer.RanCounts(started, n, writer.trace, writer.operations, RecordPlan(values), published);
    writer.RanWithin(started, n, writer.trace, writer.operations, RecordPlan(values), published);
    if !published {
      writer.UntouchedIsSafe(Report(hostPlatform, traceId, values));
      cleaned := writer.Cleanup(false, Report(hostPlatform, traceId, values));
      return;
    }
    published, recovery, cleaned := writer.Finish();
  }

  function Joined(texts: seq<Text>): Text {
    if texts == [] then "" else Joined(texts[..|texts| - 1]) + texts[|texts| - 1]
  }

  lemma {:induction false} JoinedPush(texts: seq<Text>, text: Text)
    ensures Joined(texts + [text]) == Joined(texts) + text
  {
    assert (texts + [text])[..|texts|] == texts;
  }

  function HeaderParts(hostPlatform: Text, traceId: Text): seq<Text> {
    ["{\"schema\":\"quokka.ci-test-report.v1\",\"host_platform\":", hostPlatform, ",\"trace_id\":", traceId,
      ",\"tests\":["]
  }

  lemma {:induction false} HeaderIsJoined(hostPlatform: Text, traceId: Text)
    ensures Joined(HeaderParts(hostPlatform, traceId)) == Header(hostPlatform, traceId)
  {
    var a: Text := "{\"schema\":\"quokka.ci-test-report.v1\",\"host_platform\":";
    var c: Text := ",\"trace_id\":";
    var e: Text := ",\"tests\":[";
    JoinedPush([], a);
    JoinedPush([a], hostPlatform);
    JoinedPush([a, hostPlatform], c);
    JoinedPush([a, hostPlatform, c], traceId);
    JoinedPush([a, hostPlatform, c, traceId], e);
    assert [] + [a] == [a] && [a] + [hostPlatform] == [a, hostPlatform];
    assert [a, hostPlatform] + [c] == [a, hostPlatform, c];
    assert [a, hostPlatform, c] + [traceId] == [a, hostPlatform, c, traceId];
    assert [a, hostPlatform, c, traceId] + [e] == [a, hostPlatform, c, traceId, e];
    assert "" + a == a;
  }

  lemma {:induction false} RecordsPush(tests: seq<Text>, value: Text)
    ensures Records(tests + [value]) == if tests == [] then value else Records(tests) + "," + value
  {
    assert (tests + [value])[..|tests|] == tests;
  }
}
