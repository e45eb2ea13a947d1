/** Publishing a build artifact by renames, when any file operation may fail. */
module Artifacts {
  import opened Orders

  type Path = string

  type Files<C> = map<Path, C>

  /** Which calls the environment makes fail, beyond those that must fail. */
  datatype Faults = Faults(removeStale: bool, stat: bool, backUp: bool, publish: bool, restore: bool, cleanUp: bool)

  // ---------------------------------------------------------------------
  // Single file operations: they succeed completely or change nothing.

  function Removed<C>(fs: Files<C>, path: Path, fault: bool): Files<C> {
    if fault then fs else fs - {path}
  }

  predicate Movable<C>(fs: Files<C>, from: Path, fault: bool) {
    from in fs && !fault
  }

  function Moved<C>(fs: Files<C>, from: Path, to: Path, fault: bool): Files<C> {
    if Movable(fs, from, fault) then (fs - {from})[to := fs[from]] else fs
  }

  function Backup(output: Path): Path {
    output + ".previous"
  }

  class FileSystem<C(!new)> {
    var files: Files<C>
    /** The contents of the file system after every operation, for reasoning about interruption. */
    ghost var history: seq<Files<C>>

    constructor (files: Files<C>)
      ensures this.files == files && history == []
    {
      this.files := files;
      history := [];
    }

    method Remove(path: Path, fault: bool)
      modifies this
      ensures files == Removed(old(files), path, fault) && history == old(history) + [files]
    {
      if !fault {
        files := files - {path};
      }
      history := history + [files];
    }

    method Rename(from: Path, to: Path, fault: bool) returns (ok: bool)
      modifies this
      ensures ok <==> Movable(old(files), from, fault)
      ensures files == Moved(old(files), from, to, fault) && history == old(history) + [files]
    {
      ok := from in files && !fault;
      if ok {
        files := (files - {from})[to := files[from]];
      }
      history := history + [files];
    }

    method Write(path: Path, contents: C)
      modifies this
      ensures files == old(files)[path := contents] && history == old(history) + [files]
    {
      files := files[path := contents];
      history := history + [files];
    }

    method Exists(path: Path, fault: bool) returns (found: bool)
      ensures found <==> path in files && !fault
    {
      found := path in files && !fault;
    }
  }

  // ---------------------------------------------------------------------
  // The replacement protocol.

  /** The states a replacement passes through, one per operation, and whether it reports success. */
  datatype Run<!C> = Run(states: seq<Files<C>>, ok: bool) {
    function Last(): Files<C>
      requires states != []
    {
      states[|states| - 1]
    }
  }

  function Replace<C>(fs: Files<C>, staging: Path, output: Path, faults: Faults): (r: Run<C>)
    ensures r.states != []
  {
    var aside := SetAside(fs, output, faults);
    if !aside.ok then aside
    else
      var run := Publish(aside.Last(), staging, output, faults);
      Run(aside.states + run.states, run.ok)
  }

  /** Removes a stale backup and moves the output there. */
  function SetAside<C>(fs: Files<C>, output: Path, faults: Faults): (r: Run<C>)
    ensures r.states != []
  {
    var cleared := Removed(fs, Backup(output), faults.removeStale);
    if output in cleared && !faults.stat
    then Run([cleared, Moved(cleared, output, Backup(output), faults.backUp)], Movable(cleared, output, faults.backUp))
    else Run([cleared], true)
  }

  function Publish<C>(fs: Files<C>, staging: Path, output: Path, faults: Faults): (r: Run<C>)
    ensures r.states != []
  {
    var published := Moved(fs, staging, output, faults.publish);
    if Movable(fs, staging, faults.publish) then
      Run([published, Removed(published, Backup(output), faults.cleanUp)], true)
    else
      Run([published, Moved(published, Backup(output), output, faults.restore)], false)
  }

  method ReplaceArtifactAtomically<C(!new)>(fs: FileSystem<C>, staging: Path, output: Path, faults: Faults)
    returns (ok: bool)
    modifies fs
    ensures var run := Replace(old(fs.files), staging, output, faults);
            fs.files == run.Last() && fs.history == old(fs.history) + run.states && ok == run.ok
  {
    ok := SetOutputAside(fs, output, faults);
    if !ok {
      return;
    }
    ok := PublishStaged(fs, staging, output, faults);
  }

  /** Its first half: remove a stale backup, and move the output there. */
  method SetOutputAside<C(!new)>(fs: FileSystem<C>, output: Path, faults: Faults) returns (ok: bool)
    modifies fs
    ensures var run := SetAside(old(fs.files), output, faults);
            fs.files == run.Last() && fs.history == old(fs.history) + run.states && ok == run.ok
  {
    var backup := Backup(output);
    fs.Remove(backup, faults.removeStale);
    var found := fs.Exists(output, faults.stat);
    ok := true;
    if found {
      ok := fs.Rename(output, backup, faults.backUp);
    }
  }

  /** Its second half: put the staged file in place, or put the backup back. */
  method PublishStaged<C(!new)>(fs: FileSystem<C>, staging: Path, output: Path, faults: Faults) returns (ok: bool)
    modifies fs
    ensures var run := Publish(old(fs.files), staging, output, faults);
            fs.files == run.Last() && fs.history == old(fs.history) + run.states && ok == run.ok
  {
    ok := fs.Rename(staging, output, faults.publish);
    if ok {
      fs.Remove(Backup(output), faults.cleanUp);
    } else {
      var restored := fs.Rename(Backup(output), output, faults.restore);
    }
  }

  // ---------------------------------------------------------------------
  // One call.

  predicate Distinct(staging: Path, output: Path) {
    staging != output && staging != Backup(output)
  }

  ghost predicate Holds<C(!new)>(fs: Files<C>, path: Path, c: C) {
    path in fs && fs[path] == c
  }

  /** The contents are at the output or beside it. */
  ghost predicate Survives<C(!new)>(fs: Files<C>, output: Path, c: C) {
    Holds(fs, output, c) || Holds(fs, Backup(output), c)
  }

  lemma BackupDiffers(output: Path)
    ensures Backup(output) != output
  {
    assert |Backup(output)| > |output|;
  }

  /** A call succeeds exactly if what stands at the output can be moved aside, or is not seen, and the staged
  file is there and can be moved. */
  lemma SucceedsExactlyWhen<C(!new)>(fs: Files<C>, staging: Path, output: Path, faults: Faults)
    requires Distinct(staging, output)
    ensures Replace(fs, staging, output, faults).ok <==>
            staging in fs && !faults.publish && !(output in fs && !faults.stat && faults.backUp)
  {
    BackupDiffers(output);
  }

  /** Success means that the output holds what was staged, and the staged file is gone. */
  lemma SuccessPublishes<C(!new)>(fs: Files<C>, staging: Path, output: Path, faults: Faults)
    requires Distinct(staging, output)
    requires Replace(fs, staging, output, faults).ok
    ensures staging in fs
    ensures var last := Replace(fs, staging, output, faults).Last();
            Holds(last, output, fs[staging]) && staging !in last
  {
    BackupDiffers(output);
  }

  /** After a success the backup is gone, unless it could not be removed: then what stands beside the output is what
  was moved aside, or else a stale backup that could not be removed either. */
  lemma SuccessClearsBackup<C(!new)>(fs: Files<C>, staging: Path, output: Path, faults: Faults, c: C)
    requires Distinct(staging, output)
    requires Replace(fs, staging, output, faults).ok
    ensures Holds(Replace(fs, staging, output, faults).Last(), output + ".previous", c) <==>
            && faults.cleanUp
            && if !faults.stat && output in fs then fs[output] == c
               else faults.removeStale && Holds(fs, output + ".previous", c)
  {
    BackupDiffers(output);
  }

  /** After a failure what was staged is still there. */
  lemma FailureKeepsStaged<C(!new)>(fs: Files<C>, staging: Path, output: Path, faults: Faults, c: C)
    requires Distinct(staging, output)
    requires !Replace(fs, staging, output, faults).ok
    ensures Holds(Replace(fs, staging, output, faults).Last(), staging, c) <==> Holds(fs, staging, c)
  {
    BackupDiffers(output);
  }

  lemma OthersUntouched<C(!new)>(fs: Files<C>, staging: Path, output: Path, faults: Faults, i: nat, p: Path)
    requires p != staging && p != output && p != Backup(output)
    requires i < |Replace(fs, staging, output, faults).states|
    ensures var s := Replace(fs, staging, output, faults).states[i];
            (p in s <==> p in fs) && (p in s ==> s[p] == fs[p])
  {}

  /** How a failing call, or an interrupted one, can lose contents that survived until then. If they were at the
  output: the existence test failed, a stale backup with other contents could not be removed, and restoring put
  it over the output. If they were only at the backup: the backup was removed, or another file was moved over it. */
  ghost predicate LosesCopy<C(!new)>(fs: Files<C>, output: Path, faults: Faults, c: C) {
    if Holds(fs, output, c)
    then faults.stat && faults.removeStale && Backup(output) in fs && fs[Backup(output)] != c && !faults.restore
    else !faults.removeStale || (output in fs && !faults.stat && !faults.backUp)
  }

  /** A failing call loses contents that were at the output or at the backup in exactly these cases. */
  lemma FailureLosesExactlyWhen<C(!new)>(fs: Files<C>, staging: Path, output: Path, faults: Faults, c: C)
    requires Distinct(staging, output) && Survives(fs, output, c)
    requires !Replace(fs, staging, output, faults).ok
    ensures !Survives(Replace(fs, staging, output, faults).Last(), output, c) <==> LosesCopy(fs, output, faults, c)
  {
    BackupDiffers(output);
  }

  /** In whatever state a call is interrupted: either the staged contents have been published, or the old ones
  survive unless one of those cases has occurred. */
  lemma InterruptionLosesExactlyWhen<C(!new)>(fs: Files<C>, staging: Path, output: Path, faults: Faults, c: C, i: nat)
    requires Distinct(staging, output) && Survives(fs, output, c)
    requires i < |Replace(fs, staging, output, faults).states|
    ensures var run := Replace(fs, staging, output, faults);
            if run.ok && i + 2 >= |run.states| then staging in fs && Holds(run.states[i], output, fs[staging])
            else
              !Survives(run.states[i], output, c) <==>
              && LosesCopy(fs, output, faults, c)
              && (if Holds(fs, output, c) then !run.ok && i + 1 == |run.states| else i >= 1 || !faults.removeStale)
  {
    BackupDiffers(output);
  }

  /** A failure leaves the output as it was exactly if it was never moved aside, or was moved back; or, where
  the existence test failed, if no stale backup with other contents was put over it. */
  lemma FailureRestoresExactlyWhen<C(!new)>(fs: Files<C>, staging: Path, output: Path, faults: Faults)
    requires Distinct(staging, output) && output in fs
    requires !Replace(fs, staging, output, faults).ok
    ensures Holds(Replace(fs, staging, output, faults).Last(), output, fs[output]) <==>
            if faults.stat then !LosesCopy(fs, output, faults, fs[output]) else faults.backUp || !faults.restore
  {
    BackupDiffers(output);
  }

  /** Where there was no output, a failure creates one exactly when a stale `.previous` could
      not be removed: restoring then brings the stale file back. */
  lemma FailureResurrectsExactlyWhen<C(!new)>(fs: Files<C>, staging: Path, output: Path, faults: Faults)
    requires Distinct(staging, output) && output !in fs
    requires !Replace(fs, staging, output, faults).ok
    ensures output in Replace(fs, staging, output, faults).Last() <==>
            faults.removeStale && Backup(output) in fs && !faults.restore
  {
    BackupDiffers(output);
  }

  // ---------------------------------------------------------------------
  // Sequences of calls.

  /** Where given contents are: at the output, perhaps with a backup beside them; only at the backup, with or
  without another file at the output; or nowhere. */
  datatype Place<C> = AtOutput(beside: Option<C>) | AtBackup | BehindOther | Lost

  ghost function PlaceOf<C(!new)>(fs: Files<C>, output: Path, c: C): Place<C> {
    if Holds(fs, output, c) then AtOutput(if Backup(output) in fs then Some(fs[Backup(output)]) else None)
    else if !Holds(fs, Backup(output), c) then Lost
    else if output in fs then BehindOther
    else AtBackup
  }

  /** Where a failing call with these faults leaves them. */
  ghost function AfterFailure<C(!new)>(place: Place<C>, faults: Faults, c: C): Place<C> {
    match place
    case AtOutput(beside) =>
      var stale := if faults.removeStale then beside else None;
      if !faults.stat then
        if faults.backUp then AtOutput(stale) else if faults.restore then AtBackup else AtOutput(None)
      else if stale.None? || faults.restore then AtOutput(stale)
      else if stale.value == c then AtOutput(None)
      else Lost
    case AtBackup =>
      if !faults.removeStale then Lost else if faults.restore then AtBackup else AtOutput(None)
    case BehindOther =>
      if !faults.removeStale || (!faults.stat && !faults.backUp) then Lost
      else if faults.stat && !faults.restore then AtOutput(None)
      else BehindOther
    case Lost => Lost
  }

  lemma FailureMoves<C(!new)>(fs: Files<C>, staging: Path, output: Path, faults: Faults, c: C)
    requires Distinct(staging, output)
    requires !Replace(fs, staging, output, faults).ok
    ensures PlaceOf(Replace(fs, staging, output, faults).Last(), output, c) ==
            AfterFailure(PlaceOf(fs, output, c), faults, c)
  {
    BackupDiffers(output);
  }

  /** A call to publish: what the compiler staged for it, if anything, and what fails. */
  datatype Call<C> = Call(staging: Path, staged: Option<C>, faults: Faults)

  function RunCall<C>(fs: Files<C>, output: Path, call: Call<C>): (r: Run<C>)
    ensures r.states != []
  {
    Replace(if call.staged.Some? then fs[call.staging := call.staged.value] else fs, call.staging, output, call.faults)
  }

  function AfterCalls<C>(fs: Files<C>, output: Path, calls: seq<Call<C>>): Files<C> {
    if calls == [] then fs
    else RunCall(AfterCalls(fs, output, calls[..|calls| - 1]), output, calls[|calls| - 1]).Last()
  }

  /** Every call fails. */
  ghost predicate AllFail<C(!new)>(fs: Files<C>, output: Path, calls: seq<Call<C>>) {
    calls == [] ||
    (var init := calls[..|calls| - 1];
     AllFail(fs, output, init) && !RunCall(AfterCalls(fs, output, init), output, calls[|calls| - 1]).ok)
  }

  ghost function AfterFailures<C(!new)>(place: Place<C>, calls: seq<Call<C>>, c: C): Place<C> {
    if calls == [] then place
    else AfterFailure(AfterFailures(place, calls[..|calls| - 1], c), calls[|calls| - 1].faults, c)
  }

  lemma CallMoves<C(!new)>(fs: Files<C>, output: Path, call: Call<C>, c: C)
    requires Distinct(call.staging, output) && !RunCall(fs, output, call).ok
    ensures PlaceOf(RunCall(fs, output, call).Last(), output, c) == AfterFailure(PlaceOf(fs, output, c), call.faults, c)
  {
    var staged := if call.staged.Some? then fs[call.staging := call.staged.value] else fs;
    assert PlaceOf(staged, output, c) == PlaceOf(fs, output, c);
    FailureMoves(staged, call.staging, output, call.faults, c);
  }

  /** The faults of a sequence of failing calls determine where any contents end up. */
  lemma {:induction false} FailuresMove<C(!new)>(fs: Files<C>, output: Path, calls: seq<Call<C>>, c: C)
    requires AllFail(fs, output, calls)
    requires forall k :: 0 <= k < |calls| ==> Distinct(calls[k].staging, output)
    ensures PlaceOf(AfterCalls(fs, output, calls), output, c) == AfterFailures(PlaceOf(fs, output, c), calls, c)
    ensures Survives(AfterCalls(fs, output, calls), output, c) <==>
            AfterFailures(PlaceOf(fs, output, c), calls, c) != Lost
  {
    if calls != [] {
      var init := calls[..|calls| - 1];
      FailuresMove(fs, output, init, c);
      CallMoves(AfterCalls(fs, output, init), output, calls[|calls| - 1], c);
    }
  }

  /** Call `i` moved the output aside and could not move it back, and the calls up to `n` could neither remove
  nor restore the backup. */
  ghost predicate Stranded<C(!new)>(calls: seq<Call<C>>, i: nat, n: nat) {
    && i < n <= |calls| && !calls[i].faults.backUp && calls[i].faults.restore
    && forall k :: i < k < n ==> calls[k].faults.removeStale && calls[k].faults.restore
  }

  /** Then call `j` removes the only copy before anything else. */
  ghost predicate Discards<C(!new)>(calls: seq<Call<C>>, i: nat, j: nat) {
    j < |calls| && Stranded(calls, i, j) && !calls[j].faults.removeStale
  }

  lemma DiscardsEarlier<C(!new)>(calls: seq<Call<C>>, n: nat, i: nat, j: nat)
    requires n <= |calls| && j < n
    ensures Discards(calls[..n], i, j) <==> Discards(calls, i, j)
  {
    assert forall k :: 0 <= k < n ==> calls[..n][k] == calls[k];
  }

  lemma StrandedPlace<C(!new)>(place: Place<C>, calls: seq<Call<C>>, c: C, i: nat, n: nat)
    requires place.AtOutput? && Stranded(calls, i, n)
    requires forall k :: 0 <= k < |calls| ==> !calls[k].faults.stat
    ensures AfterFailures(place, calls[..n], c).AtBackup? || AfterFailures(place, calls[..n], c).Lost?
    decreases n
  {
    assert calls[..n][..n - 1] == calls[..n - 1];
    if i == n - 1 {
      NeverBehindOther(place, calls, c, i);
    } else {
      StrandedPlace(place, calls, c, i, n - 1);
    }
  }

  lemma {:induction false} NeverBehindOther<C(!new)>(place: Place<C>, calls: seq<Call<C>>, c: C, n: nat)
    requires place.AtOutput? && n <= |calls|
    ensures !AfterFailures(place, calls[..n], c).BehindOther?
  {
    if n > 0 {
      assert calls[..n][..n - 1] == calls[..n - 1];
      NeverBehindOther(place, calls, c, n - 1);
    }
  }

  lemma {:induction false} AtBackupIsStranded<C(!new)>(place: Place<C>, calls: seq<Call<C>>, c: C, n: nat)
    requires place.AtOutput? && n <= |calls|
    requires AfterFailures(place, calls[..n], c).AtBackup?
    ensures exists i: nat :: Stranded(calls, i, n)
  {
    assert calls[..n][..n - 1] == calls[..n - 1];
    var before := AfterFailures(place, calls[..n - 1], c);
    if before.AtBackup? {
      AtBackupIsStranded(place, calls, c, n - 1);
      var i: nat :| Stranded(calls, i, n - 1);
      assert Stranded(calls, i, n);
    } else {
      NeverBehindOther(place, calls, c, n - 1);
      assert Stranded(calls, n - 1, n);
    }
  }

  /** Where the existence test works, a sequence of failing calls loses the output's contents exactly if one call
  strands them at the backup and a later one removes the backup, with nothing but stuck calls in between. */
  lemma {:induction false} FailuresLoseExactlyWhen<C(!new)>(place: Place<C>, calls: seq<Call<C>>, c: C)
    requires place.AtOutput?
    requires forall k :: 0 <= k < |calls| ==> !calls[k].faults.stat
    ensures AfterFailures(place, calls, c).Lost? <==> exists i: nat, j: nat :: Discards(calls, i, j)
  {
    if calls != [] {
      var n := |calls| - 1;
      FailuresLoseExactlyWhen(place, calls[..n], c);
      forall i: nat, j: nat | j < n ensures Discards(calls[..n], i, j) <==> Discards(calls, i, j) {
        DiscardsEarlier(calls, n, i, j);
      }
      NeverBehindOther(place, calls, c, n);
      if AfterFailures(place, calls[..n], c).AtBackup? {
        AtBackupIsStranded(place, calls, c, n);
        var i: nat :| Stranded(calls, i, n);
        assert Discards(calls, i, n) <==> !calls[n].faults.removeStale;
      }
      if i: nat :| Discards(calls, i, n) {
        StrandedPlace(place, calls, c, i, n);
      }
    }
  }

  lemma {:induction false} UnpublishableFail<C(!new)>(fs: Files<C>, output: Path, calls: seq<Call<C>>)
    requires forall k :: 0 <= k < |calls| ==> Distinct(calls[k].staging, output) && calls[k].faults.publish
    ensures AllFail(fs, output, calls)
  {
    if calls != [] {
      var init, call := calls[..|calls| - 1], calls[|calls| - 1];
      UnpublishableFail(fs, output, init);
      var before := AfterCalls(fs, output, init);
      SucceedsExactlyWhen(if call.staged.Some? then before[call.staging := call.staged.value] else before,
                          call.staging, output, call.faults);
    }
  }

  const STRANDING := Faults(false, false, false, true, true, false)
  const UNPUBLISHABLE := Faults(false, false, false, true, false, false)

  /** In particular two calls that cannot publish lose the output if the first cannot move it back. */
  lemma TwoFailuresCanLose<C(!new)>(fs: Files<C>, output: Path, staging: Path, staged: Option<C>)
    requires Distinct(staging, output) && output in fs
    ensures var calls := [Call(staging, staged, STRANDING), Call(staging, staged, UNPUBLISHABLE)];
            AllFail(fs, output, calls) && !Survives(AfterCalls(fs, output, calls), output, fs[output])
  {
    var calls := [Call(staging, staged, STRANDING), Call(staging, staged, UNPUBLISHABLE)];
    UnpublishableFail(fs, output, calls);
    FailuresMove(fs, output, calls, fs[output]);
    assert Discards(calls, 0, 1);
    FailuresLoseExactlyWhen(PlaceOf(fs, output, fs[output]), calls, fs[output]);
  }

  // ---------------------------------------------------------------------
  // Writing a file through a temporary.

  function Temporary(path: Path): Path {
    path + ".tmp"
  }

  /** What a write of the temporary leaves behind: nothing, a torn file, or the whole. */
  datatype WriteResult<C> = NotCreated | Torn(part: C) | Written

  /** Every state from `start` on has at `path` the new contents, the old ones or the old backup. */
  ghost predicate WholeFrom<C(!new)>(fs: Files<C>, path: Path, contents: C, history: seq<Files<C>>, start: nat) {
    forall i :: start <= i < |history| && path in history[i] ==>
                  || history[i][path] == contents
                  || Holds(fs, path, history[i][path])
                  || Holds(fs, Backup(path), history[i][path])
  }

  method WriteFileAtomically<C(!new)>(fs: FileSystem<C>, path: Path, contents: C, directory: bool,
                                      write: WriteResult<C>, faults: Faults)
    returns (ok: bool)
    modifies fs
    ensures |fs.history| >= |old(fs.history)| && fs.history[..|old(fs.history)|] == old(fs.history)
    ensures ok ==> Holds(fs.files, path, contents)
    ensures !directory || !write.Written? ==> !ok
    ensures WholeFrom(old(fs.files), path, contents, fs.history, |old(fs.history)|)
    ensures !ok ==> forall c :: PlaceOf(fs.files, path, c) ==
                                if directory &&
                                   write.Written? then AfterFailure(PlaceOf(old(fs.files), path, c), faults, c)
                                else PlaceOf(old(fs.files), path, c)
  {
    if !directory {
      return false;
    }
    TemporaryDiffers(path);
    match write {
      case NotCreated => return false;
      case Torn(part) =>
        fs.Write(Temporary(path), part);
        TemporaryIsElsewhere(old(fs.files), path, part);
        return false;
      case Written =>
        ok := PublishTemporary(fs, path, contents, faults);
    }
  }

  lemma TemporaryIsElsewhere<C(!new)>(fs: Files<C>, path: Path, part: C)
    ensures forall c :: PlaceOf(fs[Temporary(path) := part], path, c) == PlaceOf(fs, path, c)
  {
    TemporaryDiffers(path);
  }

  /** The temporary is written, and then replaces the file. */
  method PublishTemporary<C(!new)>(fs: FileSystem<C>, path: Path, contents: C, faults: Faults) returns (ok: bool)
    modifies fs
    ensures |fs.history| >= |old(fs.history)| && fs.history[..|old(fs.history)|] == old(fs.history)
    ensures ok ==> Holds(fs.files, path, contents)
    ensures WholeFrom(old(fs.files), path, contents, fs.history, |old(fs.history)|)
    ensures !ok ==> forall c :: PlaceOf(fs.files, path, c) == AfterFailure(PlaceOf(old(fs.files), path, c), faults, c)
  {
    fs.Write(Temporary(path), contents);
    ghost var written := fs.files;
    ok := ReplaceArtifactAtomically(fs, Temporary(path), path, faults);
    PublishedWhole(old(fs.files), path, contents, faults);
    if !ok {
      FailedWrite(old(fs.files), path, contents, faults);
    }
  }

  lemma PublishedWhole<C(!new)>(fs: Files<C>, path: Path, contents: C, faults: Faults)
    ensures var written := fs[Temporary(path) := contents];
            var run := Replace(written, Temporary(path), path, faults);
            && (run.ok ==> Holds(run.Last(), path, contents))
            && WholeFrom(fs, path, contents, [written] + run.states, 0)
  {
    TemporaryDiffers(path);
    var written := fs[Temporary(path) := contents];
    NoTearing(written, Temporary(path), path, faults);
    if Replace(written, Temporary(path), path, faults).ok {
      SuccessPublishes(written, Temporary(path), path, faults);
    }
  }

  lemma FailedWrite<C(!new)>(fs: Files<C>, path: Path, contents: C, faults: Faults)
    requires !Replace(fs[Temporary(path) := contents], Temporary(path), path, faults).ok
    ensures var last := Replace(fs[Temporary(path) := contents], Temporary(path), path, faults).Last();
            forall c :: PlaceOf(last, path, c) == AfterFailure(PlaceOf(fs, path, c), faults, c)
  {
    TemporaryDiffers(path);
    TemporaryIsElsewhere(fs, path, contents);
    var written := fs[Temporary(path) := contents];
    forall c ensures PlaceOf(Replace(written, Temporary(path), path, faults).Last(), path, c) ==
                     AfterFailure(PlaceOf(fs, path, c), faults, c) {
      FailureMoves(written, Temporary(path), path, faults, c);
    }
  }

  lemma TemporaryDiffers(path: Path)
    ensures Temporary(path) != path && Temporary(path) != Backup(path) && Distinct(Temporary(path), path)
  {
    assert |Temporary(path)| == |path| + 4 && |Backup(path)| == |path| + 9;
  }

  /** Whatever ever stands at the output is the staged file, the old one, or an old backup: whole files. */
  lemma NoTearing<C(!new)>(fs: Files<C>, staging: Path, output: Path, faults: Faults)
    requires Distinct(staging, output)
    ensures var run := Replace(fs, staging, output, faults);
            forall i :: 0 <= i < |run.states| && output in run.states[i] ==>
                          || Holds(fs, staging, run.states[i][output])
                          || Holds(fs, output, run.states[i][output])
                          || Holds(fs, Backup(output), run.states[i][output])
  {
    BackupDiffers(output);
  }
}
