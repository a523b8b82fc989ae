/** The binary swap of cmd/quil/update_apply.go: rename aside, copy, roll back. */
module UpdateApply {
  // `Disk` is a file system whose every operation may fail, at any call and independently of
  // the others; a failed copy may leave an arbitrary file behind. The swap is proved for every
  // combination of those failures.

  import opened Common

  type Blob = seq<int>

  // `Slot(t, 0)` is "<t>.old" and `Slot(t, n)` is "<t>.old.n".
  datatype Path = Plain(dir: string, name: string) | Slot(of: Path, n: nat)

  const MAX_BACKUP_SLOTS: nat := 20

  predicate IsSlot(p: Path, t: Path) { p.Slot? && p.of == t }

  // A path the swap of `t` never touches.
  predicate Outside(p: Path, t: Path) { p != t && !IsSlot(p, t) }

  predicate Unrelated(a: Path, b: Path) { Outside(a, b) && Outside(b, a) }

  datatype SwapError =
    | NoBackupSlot(target: Path)
    | BackupFailed(target: Path)
    | InstallFailed(target: Path)
    | RollbackFailed(target: Path, backup: Path)

  datatype PairError =
    | Swap(cause: SwapError)
    | QuilRollbackFailed(cause: SwapError, quilBackup: Path)

  // The backup paths an error tells the user to restore by hand.
  function Named(e: PairError): set<Path> {
    (if e.cause.RollbackFailed? then {e.cause.backup} else {})
    + (if e.QuilRollbackFailed? then {e.quilBackup} else {})
  }

  // What the optional tier reports; it never fails the update.
  datatype OptionalError =
    | CopyFailed(target: Path, partialLeft: bool)
    | ReplaceFailed(cause: SwapError)

  datatype Manifest = NoManifest | Manifest(files: set<string>)

  function Get(files: map<Path, Blob>, p: Path): Option<Blob> {
    if p in files then Some(files[p]) else None
  }

  ghost predicate SameOutside(before: map<Path, Blob>, after: map<Path, Blob>, t: Path) {
    forall p :: Outside(p, t) ==> Get(after, p) == Get(before, p)
  }

  // The bytes `target` held are still where the user can find them.
  ghost predicate Survives(before: map<Path, Blob>, after: map<Path, Blob>, target: Path, named: set<Path>) {
    || Get(after, target) == Get(before, target)
    || exists b :: b in named && IsSlot(b, target) && Get(after, b) == Get(before, target)
  }

  // An optional target is as it was, or newly installed, or its failure is reported: a partial
  // file stays only when removing it failed, a displaced file is named when it could not
  // be put back.
  ghost predicate Accounted(before: map<Path, Blob>, after: map<Path, Blob>, target: Path, staged: Path,
                            errs: seq<OptionalError>) {
    || Get(after, target) == Get(before, target)
    || (staged in before && Get(after, target) == Some(before[staged]))
    || CopyFailed(target, true) in errs
    || (CopyFailed(target, false) in errs && target !in after)
    || exists b :: ReplaceFailed(RollbackFailed(target, b)) in errs
                   && IsSlot(b, target) && Get(after, b) == Get(before, target)
  }

  // The declared and staged files that were not installed.
  function Missed(before: map<Path, Blob>, after: map<Path, Blob>, dir: string, stagedDir: string, man: Manifest,
                  names: seq<string>): set<string> {
    set i | 0 <= i < |names| && man.Manifest? && names[i] in man.files && Plain(stagedDir, names[i]) in before
            && Get(after, Plain(dir, names[i])) != Get(before, Plain(stagedDir, names[i])) :: names[i]
  }

  lemma MissedOne(start: map<Path, Blob>, before: map<Path, Blob>, after: map<Path, Blob>, dir: string,
                  stagedDir: string, man: Manifest, names: seq<string>, i: nat)
    requires i < |names| && forall j, k :: 0 <= j < k < |names| ==> names[j] != names[k]
    requires SameOutside(before, after, Plain(dir, names[i]))
    ensures var now, was := Missed(start, after, dir, stagedDir, man, names[..i + 1]), Missed(start, before, dir, stagedDir, man, names[..i]);
            |now| <= |was| + (if names[i] in now then 1 else 0)
    ensures names[i] in Missed(start, after, dir, stagedDir, man, names[..i + 1]) ==>
              man.Manifest? && names[i] in man.files && Plain(stagedDir, names[i]) in start
              && Get(after, Plain(dir, names[i])) != Get(start, Plain(stagedDir, names[i]))
  {
    var now, was := Missed(start, after, dir, stagedDir, man, names[..i + 1]), Missed(start, before, dir, stagedDir, man, names[..i]);
    forall n | n in now && n != names[i] ensures n in was {
      var k :| 0 <= k < i + 1 && names[..i + 1][k] == n;
      assert names[..i][k] == n && Outside(Plain(dir, n), Plain(dir, names[i]));
    }
    hide Missed;
    assert now - {names[i]} <= was;
    Fewer(now - {names[i]}, was);
  }

  // What was accounted for stays so while another target is dealt with.
  lemma AccountedStays(start: map<Path, Blob>, before: map<Path, Blob>, after: map<Path, Blob>, t: Path, staged: Path,
                       now: Path, earlier: seq<OptionalError>, err: seq<OptionalError>)
    requires Accounted(start, before, t, staged, earlier) && SameOutside(before, after, now)
    requires t.Plain? && now.Plain? && t != now
    ensures Accounted(start, after, t, staged, earlier + err)
  {
    assert Outside(t, now) && forall b :: IsSlot(b, t) ==> Outside(b, now);
    assert forall e :: e in earlier ==> e in earlier + err;
  }

  lemma AccountedNow(start: map<Path, Blob>, before: map<Path, Blob>, after: map<Path, Blob>, t: Path, staged: Path,
                     earlier: seq<OptionalError>, err: seq<OptionalError>)
    requires Accounted(before, after, t, staged, err)
    requires Get(before, t) == Get(start, t) && Get(before, staged) == Get(start, staged)
    ensures Accounted(start, after, t, staged, earlier + err)
  {
    assert forall e :: e in err ==> e in earlier + err;
  }

  lemma {:induction false} Fewer<T>(a: set<T>, b: set<T>)
    requires a <= b
    ensures |a| <= |b|
    decreases |a|
  {
    if x :| x in a {
      Fewer(a - {x}, b - {x});
    }
  }

  class Disk {
    var files: map<Path, Blob>
    var faults: nat  // operations that failed, or answered wrongly, though the files allowed them

    method Fault()
      modifies this`faults
      ensures faults == old(faults) + 1
    {
      faults := faults + 1;
    }

    // os.Remove, telling whether the file is gone: an error that it never existed says so too.
    method Remove(p: Path) returns (ok: bool)
      modifies this
      ensures ok ==> files == old(files) - {p}
      ensures !ok ==> files == old(files)
      ensures faults >= old(faults) && (faults == old(faults) ==> p !in files)
    {
      ok := true;
      if p in files {
        if * {
          files := files - {p};
        } else {
          ok := false;
          Fault();
        }
      }
    }

    // os.Lstat or os.Stat, reporting only whether the error is fs.ErrNotExist.
    method StatNotExist(p: Path) returns (notExist: bool)
      modifies this`faults
      ensures notExist ==> p !in files
      ensures faults >= old(faults) && (faults == old(faults) ==> (notExist <==> p !in files))
    {
      notExist := p !in files;
      if * {
        notExist := false;
        Fault();
      }
    }

    // os.Stat, reporting only whether there is no error.
    method StatOk(p: Path) returns (ok: bool)
      modifies this`faults
      ensures ok ==> p in files
      ensures faults >= old(faults) && (faults == old(faults) ==> (ok <==> p in files))
    {
      ok := p in files;
      if * {
        ok := false;
        Fault();
      }
    }

    method Rename(src: Path, dst: Path) returns (ok: bool)
      modifies this
      ensures ok ==> src in old(files) && files == (old(files) - {src})[dst := old(files)[src]]
      ensures !ok ==> files == old(files)
      ensures faults >= old(faults) && (faults == old(faults) ==> (ok <==> src in old(files)))
    {
      ok := false;
      if src in files {
        if * {
          files := (files - {src})[dst := files[src]];
          ok := true;
        } else {
          Fault();
        }
      }
    }

    // A failure may come before the destination is opened or after part of it is written.
    method CopyFile(src: Path, dst: Path) returns (ok: bool)
      modifies this
      ensures ok ==> src in old(files) && files == old(files)[dst := old(files)[src]]
      ensures forall p :: p != dst ==> Get(files, p) == Get(old(files), p)
      ensures faults >= old(faults) && (faults == old(faults) ==> (ok <==> src in old(files)))
      ensures src !in old(files) ==> files == old(files)
    {
      ok := false;
      if src in files {
        if * {
          files := files[dst := files[src]];
          ok := true;
        } else {
          Fault();
          if * {
            var partial: Blob := *;
            files := files[dst := partial];
          }
        }
      }
    }

    method FreeBackupPath(target: Path) returns (r: Result<Path, SwapError>)
      modifies this
      ensures r.Success? ==> IsSlot(r.value, target) && r.value.n <= MAX_BACKUP_SLOTS && r.value !in files
      ensures r.Failure? ==> r.error == NoBackupSlot(target)
      ensures Get(files, target) == Get(old(files), target)
      ensures SameOutside(old(files), files, target)
      // The first name nothing keeps from being cleared: each one passed over cost a failure.
      ensures faults >= old(faults) && (faults == old(faults) ==> r == Success(Slot(target, 0)))
      ensures r.Success? ==> faults >= old(faults) + r.value.n
      ensures r.Failure? ==> faults > old(faults) + MAX_BACKUP_SLOTS
    {
      var i := 0;
      while i <= MAX_BACKUP_SLOTS
        invariant 0 <= i <= MAX_BACKUP_SLOTS + 1
        invariant faults >= old(faults) + i
        invariant Get(files, target) == Get(old(files), target)
        invariant SameOutside(old(files), files, target)
      {
        var path := Slot(target, i);
        SlotIsNotItsTarget(path);
        var _ := Remove(path);
        var free := StatNotExist(path);
        if free {
          return Success(path);
        }
        i := i + 1;
      }
      return Failure(NoBackupSlot(target));
    }

    method SwapOne(target: Path, staged: Path) returns (r: Result<Path, SwapError>)
      requires Outside(staged, target)
      modifies this
      ensures SameOutside(old(files), files, target)
      ensures r.Failure? ==> r.error.target == target
      ensures r.Success? ==>
                && IsSlot(r.value, target) && r.value.n <= MAX_BACKUP_SLOTS
                && target in old(files) && staged in old(files)
                && Get(files, target) == Some(old(files)[staged])
                && Get(files, r.value) == Some(old(files)[target])
      ensures r.Failure? && !r.error.RollbackFailed? ==> Get(files, target) == Get(old(files), target)
      ensures r.Failure? && r.error.RollbackFailed? ==>
                && target in old(files) && IsSlot(r.error.backup, target)
                && Get(files, r.error.backup) == Some(old(files)[target])
      // With nothing failing: a swap of what is there succeeds, and anything else is undone.
      ensures faults >= old(faults)
      ensures faults == old(faults) ==>
                && (r.Success? <==> target in old(files) && staged in old(files))
                && (r.Failure? ==> !r.error.RollbackFailed?)
      // Leftovers that cannot be cleared stop a swap only when there is one at every slot.
      ensures r.Failure? && r.error.NoBackupSlot? ==> faults > old(faults) + MAX_BACKUP_SLOTS
      ensures r.Success? ==> faults >= old(faults) + r.value.n
    {
      var free := FreeBackupPath(target);
      if free.Failure? {
        return Failure(free.error);
      }
      var backup := free.value;
      SlotIsNotItsTarget(backup);
      var renamed := Rename(target, backup);
      if !renamed {
        return Failure(BackupFailed(target));
      }
      var copied := CopyFile(staged, target);
      if !copied {
        assert Get(files, backup) == Some(old(files)[target]);
        ghost var failed := files;
        var rolledBack := Rename(backup, target);
        if !rolledBack {
          return Failure(RollbackFailed(target, backup));
        }
        forall p | Outside(p, target) ensures Get(files, p) == Get(old(files), p) {
          assert Get(files, p) == Get(failed, p);
        }
        return Failure(InstallFailed(target));
      }
      return Success(backup);
    }

    // The required pair, then the optional tier. Nil means both new; an error whose rollbacks
    // all worked means both old; whatever happened, each original's bytes are at its target
    // or at a backup the error names.
    method SwapPair(quilTarget: Path, quildTarget: Path, stagedQuil: Path, stagedQuild: Path,
                    stagedDir: string, man: Manifest, optional: seq<string>)
      returns (r: Result<bool, PairError>)
      requires Unrelated(quilTarget, quildTarget) && quilTarget.Plain?
      requires Outside(stagedQuil, quilTarget) && Outside(stagedQuil, quildTarget)
      requires Outside(stagedQuild, quilTarget) && Outside(stagedQuild, quildTarget)
      requires forall i :: 0 <= i < |optional| ==>
                 && Unrelated(Plain(quilTarget.dir, optional[i]), quilTarget)
                 && Unrelated(Plain(quilTarget.dir, optional[i]), quildTarget)
      requires stagedDir != quilTarget.dir
      requires forall i, j :: 0 <= i < j < |optional| ==> optional[i] != optional[j]
      modifies this
      ensures r.Success? ==>
                && r.value && stagedQuil in old(files) && Get(files, quilTarget) == Some(old(files)[stagedQuil])
                && stagedQuild in old(files) && Get(files, quildTarget) == Some(old(files)[stagedQuild])
                && (exists b :: IsSlot(b, quilTarget) && Get(files, b) == Get(old(files), quilTarget))
                && (exists b :: IsSlot(b, quildTarget) && Get(files, b) == Get(old(files), quildTarget))
      ensures r.Failure? && Named(r.error) == {} ==>
                && Get(files, quilTarget) == Get(old(files), quilTarget)
                && Get(files, quildTarget) == Get(old(files), quildTarget)
      ensures r.Failure? ==>
                && Survives(old(files), files, quilTarget, Named(r.error))
                && Survives(old(files), files, quildTarget, Named(r.error))
      // With nothing failing the pair is swapped exactly when all four files are there.
      ensures faults >= old(faults)
      ensures faults == old(faults) ==>
                && (r.Success? <==> quilTarget in old(files) && quildTarget in old(files)
                                    && stagedQuil in old(files) && stagedQuild in old(files))
                && (r.Failure? ==> Named(r.error) == {})
      ensures r.Failure? && r.error.cause.NoBackupSlot? ==> faults > old(faults) + MAX_BACKUP_SLOTS
    {
      var first := SwapOne(quilTarget, stagedQuil);
      if first.Failure? {
        return Failure(Swap(first.error));
      }
      var quilBackup := first.value;
      SlotOfOne(quilBackup, quilTarget, quildTarget);
      var second := SwapOne(quildTarget, stagedQuild);
      if second.Failure? {
        var rolledBack := Rename(quilBackup, quilTarget);
        if !rolledBack {
          return Failure(QuilRollbackFailed(second.error, quilBackup));
        }
        return Failure(Swap(second.error));
      }
      ghost var quildBackup := second.value;
      SlotsAreOutside(quilBackup, quilTarget, quildTarget, quilTarget.dir, optional);
      SlotsAreOutside(quildBackup, quildTarget, quilTarget, quilTarget.dir, optional);
      var _ := InstallOptional(quilTarget.dir, stagedDir, man, optional);
      assert IsSlot(quilBackup, quilTarget) && IsSlot(quildBackup, quildTarget);
      return Success(true);
    }

    // The optional tier touches nothing but its own targets and their backups, and installs
    // nothing the manifest does not declare.
    method InstallOptional(dir: string, stagedDir: string, man: Manifest, optional: seq<string>)
      returns (errs: seq<OptionalError>)
      requires stagedDir != dir
      requires forall i, j :: 0 <= i < j < |optional| ==> optional[i] != optional[j]
      modifies this
      ensures forall p :: (forall i :: 0 <= i < |optional| ==> Outside(p, Plain(dir, optional[i]))) ==>
                Get(files, p) == Get(old(files), p)
      ensures forall name :: (man.NoManifest? || name !in man.files) ==>
                Get(files, Plain(dir, name)) == Get(old(files), Plain(dir, name))
      ensures forall i :: 0 <= i < |optional| ==>
                Accounted(old(files), files, Plain(dir, optional[i]), Plain(stagedDir, optional[i]), errs)
      // Every declared and staged file is installed, but for one a failure at most.
      ensures faults >= old(faults) + |Missed(old(files), files, dir, stagedDir, man, optional)|
    {
      errs := [];
      assert Missed(files, files, dir, stagedDir, man, optional[..0]) == {};
      assert man.NoManifest? ==> Missed(files, files, dir, stagedDir, man, optional) == {};
      if man.NoManifest? {
        return;
      }
      hide Missed, Accounted;
      var i := 0;
      while i < |optional|
        invariant 0 <= i <= |optional|
        invariant forall p :: (forall k :: 0 <= k < i ==> Outside(p, Plain(dir, optional[k]))) ==>
                    Get(files, p) == Get(old(files), p)
        invariant forall name :: name !in man.files ==>
                    Get(files, Plain(dir, name)) == Get(old(files), Plain(dir, name))
        invariant forall k :: 0 <= k < i ==>
                    Accounted(old(files), files, Plain(dir, optional[k]), Plain(stagedDir, optional[k]), errs)
        invariant faults >= old(faults) + |Missed(old(files), files, dir, stagedDir, man, optional[..i])|
      {
        ghost var before := files;
        ghost var now := Plain(dir, optional[i]);
        assert Get(before, now) == Get(old(files), now) && Get(before, Plain(stagedDir, optional[i]))
               == Get(old(files), Plain(stagedDir, optional[i])) by {
          assert forall k :: 0 <= k < i ==> Outside(now, Plain(dir, optional[k]));
          assert forall k :: 0 <= k < i ==> Outside(Plain(stagedDir, optional[i]), Plain(dir, optional[k]));
        }
        var err := InstallOne(Plain(stagedDir, optional[i]), Plain(dir, optional[i]), optional[i] in man.files);
        ghost var earlier := errs;
        errs := errs + err;
        forall k | 0 <= k < i
          ensures Accounted(old(files), files, Plain(dir, optional[k]), Plain(stagedDir, optional[k]), errs)
        {
          AccountedStays(old(files), before, files, Plain(dir, optional[k]), Plain(stagedDir, optional[k]), now, earlier, err);
        }
        AccountedNow(old(files), before, files, now, Plain(stagedDir, optional[i]), earlier, err);
        MissedOne(old(files), before, files, dir, stagedDir, man, optional, i);
        i := i + 1;
      }
      assert optional[..|optional|] == optional;
    }

    // One pass of the loop in installOptional.
    method InstallOne(staged: Path, target: Path, declared: bool) returns (err: seq<OptionalError>)
      requires Outside(staged, target)
      modifies this
      ensures SameOutside(old(files), files, target)
      ensures !declared ==> files == old(files)
      ensures Accounted(old(files), files, target, staged, err)
      ensures faults >= old(faults)
      ensures faults == old(faults) && declared && staged in old(files) ==> Get(files, target) == Get(old(files), staged)
      // A target that was not there leaves no backup behind.
      ensures faults == old(faults) && target !in old(files) ==> forall p :: p != target ==> Get(files, p) == Get(old(files), p)
    {
      err := [];
      if !declared {
        return;
      }
      var there := StatOk(staged);
      if !there {
        return;
      }
      var absent := StatNotExist(target);
      if absent {
        var copied := CopyFile(staged, target);
        if !copied {
          var removed := Remove(target);
          err := [CopyFailed(target, !removed)];
        }
        return;
      }
      var swapped := SwapOne(target, staged);
      if swapped.Failure? {
        err := [ReplaceFailed(swapped.error)];
      }
    }
  }

  function Depth(p: Path): nat {
    if p.Plain? then 0 else 1 + Depth(p.of)
  }

  lemma SlotIsNotItsTarget(p: Path)
    requires p.Slot?
    ensures p != p.of
  {
    assert Depth(p.of) < Depth(p);
  }

  lemma SlotOfOne(b: Path, t: Path, u: Path)
    requires IsSlot(b, t) && Unrelated(t, u)
    ensures Outside(b, u)
  {
  }

  lemma SlotsAreOutside(b: Path, t: Path, u: Path, dir: string, names: seq<string>)
    requires IsSlot(b, t) && Unrelated(t, u)
    requires forall i :: 0 <= i < |names| ==> Unrelated(Plain(dir, names[i]), t)
    ensures forall i :: 0 <= i < |names| ==> Outside(b, Plain(dir, names[i]))
  {
  }
}
