/** Rotating a service secret by links and renames over three paths, when any call may fail. */
module SecretRotation {

  datatype Path = Current | Retained | Candidate

  /** What a path names: nothing, the secret being rotated, its successor, or something else. */
  datatype Target = Nothing | OldSecret | NewSecret | Partial | Foreign

  datatype Files = Files(current: Target, retained: Target, candidate: Target) {
    function At(path: Path): Target {
      match path case Current => current case Retained => retained case Candidate => candidate
    }

    function With(path: Path, target: Target): Files {
      match path
      case Current => this.(current := target)
      case Retained => this.(retained := target)
      case Candidate => this.(candidate := target)
    }
  }

  /** The old secret can still be found. */
  predicate Keeps(files: Files) { files.current == OldSecret || files.retained == OldSecret }

  class SecretsDirectory {
    var files: Files
    /** Some state so far had the old secret at neither path. */
    ghost var everLost: bool

    ghost predicate Valid()
      reads this
    {
      !Keeps(files) ==> everLost
    }

    constructor (files: Files)
      ensures Valid() && this.files == files && everLost == !Keeps(files)
    {
      this.files, everLost := files, !Keeps(files);
    }

    method Set(path: Path, target: Target)
      modifies this
      ensures files == old(files).With(path, target) && (everLost <==> old(everLost) || !Keeps(files))
    {
      files := files.With(path, target);
      everLost := everLost || !Keeps(files);
    }

    /** Creates a file that must not exist yet. */
    method Create(path: Path, target: Target, works: bool) returns (done: bool)
      requires Valid()
      modifies this
      ensures Valid() && (everLost <==> old(everLost) || !Keeps(files))
      ensures done <==> works && old(files).At(path) == Nothing
      ensures files == if done then old(files).With(path, target) else old(files)
    {
      done := works && files.At(path) == Nothing;
      if done {
        Set(path, target);
      }
    }

    method Link(source: Path, target: Path, works: bool) returns (done: bool)
      requires Valid()
      modifies this
      ensures Valid() && (everLost <==> old(everLost) || !Keeps(files))
      ensures done <==> works && old(files).At(source) != Nothing && old(files).At(target) == Nothing
      ensures files == if done then old(files).With(target, old(files).At(source)) else old(files)
    {
      done := works && files.At(source) != Nothing && files.At(target) == Nothing;
      if done {
        Set(target, files.At(source));
      }
    }

    /** Renaming is one step; over another name of the same file it changes nothing. */
    method Rename(source: Path, target: Path, works: bool) returns (done: bool)
      requires Valid()
      modifies this
      ensures Valid() && (everLost <==> old(everLost) || !Keeps(files))
      ensures done <==> works && old(files).At(source) != Nothing
      ensures files ==
              if !done || old(files).At(target) == old(files).At(source) then old(files)
              else old(files).With(source, Nothing).With(target, old(files).At(source))
    {
      done := works && files.At(source) != Nothing;
      if done && files.At(target) != files.At(source) {
        files := files.With(source, Nothing).With(target, files.At(source));
        everLost := everLost || !Keeps(files);
      }
    }

    method Unlink(path: Path, works: bool) returns (done: bool)
      requires Valid()
      modifies this
      ensures Valid() && (everLost <==> old(everLost) || !Keeps(files))
      ensures done <==> works && old(files).At(path) != Nothing
      ensures files == if done then old(files).With(path, Nothing) else old(files)
    {
      done := works && files.At(path) != Nothing;
      if done {
        Set(path, Nothing);
      }
    }
  }

  /** A journalled effect starts when its intent is written, and returns when its result is. */
  datatype EffectFaults = EffectFaults(starts: bool, recorded: bool)

  /** Which calls of one rotation work. */
  datatype RotationFaults = RotationFaults(
    accepted: bool,
    candidateEffect: EffectFaults,
    open: bool,
    write: bool,
    unlinkPartial: bool,
    close: bool,
    unlinkUnused: bool,
    readinessEffect: EffectFaults,
    candidateReady: bool,
    swapEffect: EffectFaults,
    link: bool,
    rename: bool,
    sync: bool,
    renameBack: bool,
    unlinkRetained: bool,
    activeEffect: EffectFaults,
    activeReady: bool,
    publishEffect: EffectFaults,
    publish: bool,
    rollbackSetAside: bool,
    rollbackRestore: bool,
    rollbackSync: bool,
    rollbackApply: bool,
    rollbackUnlink: bool,
    journalRollback: bool)

  datatype Outcome = Rotated | Refused | NoCandidate | FailedBeforeCommit | RecoveryRequired

  /** The candidate is created and journalled. */
  predicate CandidateWorks(f: RotationFaults) {
    f.candidateEffect.starts && f.open && f.write && f.close && f.candidateEffect.recorded
  }

  /** The swap is reached and both its steps take effect. */
  predicate Swaps(f: RotationFaults) { ReachesRename(f) && f.rename }

  predicate ReachesRename(f: RotationFaults) {
    && CandidateWorks(f) && f.readinessEffect == EffectFaults(true, true) && f.candidateReady
    && f.swapEffect.starts && f.link
  }

  /** The directory cannot be synchronised after the swap, and what undoes the swap works: the
      handler unlinks the last name of the old secret. */
  predicate Loses(f: RotationFaults) {
    Swaps(f) && !f.sync && f.renameBack && f.unlinkRetained
  }

  /** The new secret is at the current path when the swap is over: it was synchronised, or could not
      be renamed back. */
  predicate SwapStands(f: RotationFaults) { Swaps(f) && (f.sync || !f.renameBack) }

  /** The retained name cannot be unlinked when the swap is given up. */
  predicate LeavesRetained(f: RotationFaults) {
    ReachesRename(f) && (!f.rename || (!f.sync && f.renameBack)) && !f.unlinkRetained
  }

  /** The rotation may begin: the target is the previewed secret, under one name, and nothing is
      retained yet. */
  predicate Ready(files: Files) {
    files.current == OldSecret && files.retained == Nothing && files.candidate in {Nothing, Foreign}
  }

  /** What a rotation that was given up leaves, its candidate removed. */
  function AfterFailedSwap(f: RotationFaults): Files {
    if Loses(f) then Files(Nothing, Nothing, Nothing)
    else if LeavesRetained(f) then Files(if f.rename then Nothing else OldSecret, OldSecret, Nothing)
    else RESTORED
  }

  const BEFORE_SWAP := Files(OldSecret, Nothing, NewSecret)
  const SWAPPED := Files(NewSecret, OldSecret, Nothing)
  const RESTORED := Files(OldSecret, Nothing, Nothing)

  /** What a candidate that was not created leaves at its path. */
  function CandidateLeft(f: RotationFaults): Target {
    if !f.candidateEffect.starts || !f.open then Nothing
    else if !f.write then (if f.unlinkPartial then Nothing else Partial)
    else (if f.unlinkUnused then Nothing else NewSecret)
  }

  method CreateCandidate(dir: SecretsDirectory, f: RotationFaults) returns (created: bool)
    requires dir.Valid() && Ready(dir.files)
    modifies dir
    ensures dir.Valid() && dir.everLost == old(dir.everLost)
    ensures created <==> CandidateWorks(f) && old(dir.files).candidate == Nothing
    ensures created ==> dir.files == BEFORE_SWAP
    ensures !created ==> dir.files.current == OldSecret && dir.files.retained == Nothing
    ensures !created && old(dir.files).candidate != Nothing ==> dir.files == old(dir.files)
    ensures !created && f.unlinkPartial && f.unlinkUnused ==> dir.files == old(dir.files)
    ensures !created && old(dir.files).candidate == Nothing ==> dir.files.candidate == CandidateLeft(f)
  {
    if !f.candidateEffect.starts {
      return false;
    }
    var exclusive := dir.Create(Candidate, Partial, f.open);
    if !exclusive {
      return false;
    }
    if !f.write {
      var _ := dir.Unlink(Candidate, f.unlinkPartial);
      return false;
    }
    dir.Set(Candidate, NewSecret);
    created := f.close && f.candidateEffect.recorded;
    if !created {
      var _ := dir.Unlink(Candidate, f.unlinkUnused);
    }
  }

  /** Keeps a second name of the old secret and renames the candidate over the first. */
  method Swap(dir: SecretsDirectory, f: RotationFaults) returns (done: bool, swapped: bool)
    requires dir.Valid() && dir.files == BEFORE_SWAP
    modifies dir
    ensures dir.Valid()
    ensures done <==> f.link && f.rename && f.sync
    ensures swapped <==> f.link && f.rename && (f.sync || !f.renameBack)
    ensures dir.files ==
            if swapped then SWAPPED
            else if !f.link then BEFORE_SWAP
            else Files(if f.rename then Nothing else OldSecret,
                       if f.unlinkRetained then Nothing else OldSecret, NewSecret)
    ensures dir.everLost <==>
              old(dir.everLost) || (f.link && f.rename && !f.sync && f.renameBack && f.unlinkRetained)
  {
    swapped := false;
    var linked := dir.Link(Current, Retained, f.link);
    if !linked {
      return false, false;
    }
    swapped := dir.Rename(Candidate, Current, f.rename);
    if swapped && f.sync {
      return true, true;
    }
    if swapped {
      var back := dir.Rename(Current, Candidate, f.renameBack);
      if !back {
        return false, true;
      }
      swapped := false;
    }
    var _ := dir.Unlink(Retained, f.unlinkRetained);
    return false, swapped;
  }

  /** From a ready candidate to the published swap. */
  method Advance(dir: SecretsDirectory, f: RotationFaults) returns (done: bool, swapped: bool)
    requires dir.Valid() && dir.files == BEFORE_SWAP && CandidateWorks(f)
    modifies dir
    ensures dir.Valid()
    ensures done <==> AllWork(f)
    ensures done ==> swapped
    ensures swapped <==> SwapStands(f)
    ensures if swapped then dir.files == SWAPPED && !Loses(f) && !LeavesRetained(f)
            else dir.files == AfterFailedSwap(f).With(Candidate, NewSecret)
    ensures Keeps(dir.files) <==> !Loses(f)
    ensures dir.everLost <==> old(dir.everLost) || Loses(f)
  {
    SwapDecides(f);
    hide AllWork, Loses, LeavesRetained, ReachesRename, Swaps, SwapStands, CandidateWorks;
    if !f.readinessEffect.starts || !f.candidateReady || !f.readinessEffect.recorded {
      return false, false;
    }
    if !f.swapEffect.starts {
      return false, false;
    }
    done, swapped := Swap(dir, f);
    if !done || !f.swapEffect.recorded {
      return false, swapped;
    }
    done := Publish(f);
  }

  /** The services take up the new secret and its identity is published. */
  method Publish(f: RotationFaults) returns (done: bool)
    ensures done <==> Published(f)
  {
    if !f.activeEffect.starts || !f.activeReady || !f.activeEffect.recorded {
      return false;
    }
    return f.publishEffect.starts && f.publish && f.publishEffect.recorded;
  }

  predicate Published(f: RotationFaults) {
    f.activeEffect == EffectFaults(true, true) && f.activeReady
    && f.publishEffect == EffectFaults(true, true) && f.publish
  }

  /** Past a ready candidate, the calls of the swap alone decide what becomes of the old secret. */
  lemma {:induction false} SwapDecides(f: RotationFaults)
    requires CandidateWorks(f)
    ensures var reached := f.readinessEffect.starts && f.readinessEffect.recorded && f.candidateReady
                           && f.swapEffect.starts;
            && (Loses(f) <==> reached && f.link && f.rename && !f.sync && f.renameBack && f.unlinkRetained)
            && (SwapStands(f) <==> reached && f.link && f.rename && (f.sync || !f.renameBack))
            && (LeavesRetained(f) <==>
                  reached && f.link && (!f.rename || (!f.sync && f.renameBack)) && !f.unlinkRetained)
            && (AllWork(f) <==>
                  reached && f.link && f.rename && f.sync && f.swapEffect.recorded && Published(f))
  {}

  /** Every call on the way to a rotated secret works. */
  predicate AllWork(f: RotationFaults) {
    && CandidateWorks(f) && f.readinessEffect == EffectFaults(true, true) && f.candidateReady
    && f.swapEffect == EffectFaults(true, true) && f.link && f.rename && f.sync
    && Published(f)
  }

  /** Every call of the rolling back works; the first three are made only when the swap stands. */
  predicate RollbackWorks(f: RotationFaults, swapped: bool) {
    && (swapped ==> f.rollbackSetAside && f.rollbackRestore && f.rollbackSync)
    && f.rollbackApply && f.rollbackUnlink && f.journalRollback
  }

  /** What rolling back makes of the directory: the new secret is set aside, the old one put back and
      the candidate removed, as far as the calls work. */
  function RolledBack(files: Files, f: RotationFaults, swapped: bool): Files {
    if swapped && !f.rollbackSetAside then files
    else if swapped && !f.rollbackRestore then Files(Nothing, OldSecret, NewSecret)
    else
      var back := if swapped then Files(OldSecret, Nothing, NewSecret) else files;
      if (swapped && !f.rollbackSync) || !f.rollbackApply || !f.rollbackUnlink then back
      else back.(candidate := Nothing)
  }

  /** Puts the old secret back when the swap stands, and removes the candidate. */
  method RollBack(dir: SecretsDirectory, f: RotationFaults, swapped: bool) returns (restored: bool)
    requires dir.Valid()
    requires if swapped then dir.files == SWAPPED else dir.files.candidate == NewSecret
    modifies dir
    ensures dir.Valid() && dir.everLost == old(dir.everLost) && Keeps(dir.files) == Keeps(old(dir.files))
    ensures restored <==> RollbackWorks(f, swapped)
    ensures dir.files == RolledBack(old(dir.files), f, swapped)
    ensures restored ==> dir.files == if swapped then RESTORED else old(dir.files).With(Candidate, Nothing)
  {
    if swapped {
      var aside := dir.Rename(Current, Candidate, f.rollbackSetAside);
      if !aside {
        return false;
      }
      var back := dir.Rename(Retained, Current, f.rollbackRestore);
      if !back || !f.rollbackSync {
        return false;
      }
    }
    if !f.rollbackApply {
      return false;
    }
    var removed := dir.Unlink(Candidate, f.rollbackUnlink);
    return removed && f.journalRollback;
  }

  /** The rotation gets past the creation of its candidate. */
  predicate Begins(f: RotationFaults, files: Files) {
    f.accepted && Ready(files) && CandidateWorks(f) && files.candidate == Nothing
  }

  /** Rotates the secret, or restores it. The old secret stays at the current or the retained
      path in every state, unless the directory cannot be synchronised after the swap while the
      swap can be undone. A plain failure restores the directory, unless it lost the secret or
      could not unlink the retained name. */
  method RotateServiceSecret(dir: SecretsDirectory, f: RotationFaults) returns (r: Outcome)
    requires dir.Valid()
    modifies dir
    ensures dir.Valid()
    ensures r == Refused <==> !(f.accepted && Ready(old(dir.files)))
    ensures r == NoCandidate <==> f.accepted && Ready(old(dir.files)) && !Begins(f, old(dir.files))
    ensures r == Rotated <==> Begins(f, old(dir.files)) && AllWork(f)
    ensures r == RecoveryRequired <==>
              Begins(f, old(dir.files)) && !AllWork(f) && !RollbackWorks(f, SwapStands(f))
    ensures r == RecoveryRequired ==>
              dir.files == if SwapStands(f) then RolledBack(Files(NewSecret, OldSecret, Nothing), f, true)
                           else RolledBack(AfterFailedSwap(f).(candidate := NewSecret), f, false)
    ensures r == Refused ==> dir.files == old(dir.files)
    ensures r == NoCandidate ==> dir.files.current == OldSecret && dir.files.retained == Nothing
    ensures r == NoCandidate && f.unlinkPartial && f.unlinkUnused ==> dir.files == old(dir.files)
    ensures r == NoCandidate ==>
              dir.files.candidate == if old(dir.files).candidate == Nothing then CandidateLeft(f)
                                     else old(dir.files).candidate
    ensures r == Rotated ==> dir.files == Files(NewSecret, OldSecret, Nothing)
    ensures r == FailedBeforeCommit ==> dir.files == AfterFailedSwap(f)
    ensures Begins(f, old(dir.files)) ==>
              (dir.everLost <==> old(dir.everLost) || Loses(f)) && (Keeps(dir.files) <==> !Loses(f))
    ensures !Begins(f, old(dir.files)) ==>
              dir.everLost == old(dir.everLost) && Keeps(dir.files) == Keeps(old(dir.files))
  {
    hide Loses, LeavesRetained, AllWork, RollbackWorks, SwapStands, RolledBack, CandidateWorks;
    if !f.accepted || !Ready(dir.files) {
      return Refused;
    }
    var created := CreateCandidate(dir, f);
    if !created {
      return NoCandidate;
    }
    var done, swapped := Advance(dir, f);
    if done {
      return Rotated;
    }
    var restored := RollBack(dir, f, swapped);
    return if restored then FailedBeforeCommit else RecoveryRequired;
  }

  const ALL_WORK := RotationFaults(
    true, EffectFaults(true, true), true, true, true, true, true, EffectFaults(true, true), true,
    EffectFaults(true, true), true, true, true, true, true, EffectFaults(true, true), true,
    EffectFaults(true, true), true, true, true, true, true, true, true)

  const SYNC_FAILS := ALL_WORK.(sync := false)
  const UNLINK_FAILS := SYNC_FAILS.(unlinkRetained := false)

  /** A rotation with a single failed directory synchronisation is reported as failed before its
      commit, and no name is left of the old secret; had the handler's unlink failed as well, the
      retained name would be left. */
  method OneFailedSyncLoses() returns (lost: Outcome, none: Files, kept: Outcome, retained: Files)
    ensures lost == FailedBeforeCommit && none == Files(Nothing, Nothing, Nothing)
    ensures kept == FailedBeforeCommit && retained == Files(Nothing, OldSecret, Nothing)
  {
    var dir := new SecretsDirectory(RESTORED);
    lost := RotateServiceSecret(dir, SYNC_FAILS);
    none := dir.files;
    dir := new SecretsDirectory(RESTORED);
    kept := RotateServiceSecret(dir, UNLINK_FAILS);
    retained := dir.files;
  }

  /** Working inverses are what loses the secret: if either of them failed as well, it would be kept. */
  lemma {:induction false} InversesLose(f: RotationFaults)
    requires Loses(f)
    ensures !Loses(f.(renameBack := false)) && !Loses(f.(unlinkRetained := false)) && !Loses(f.(sync := true))
    ensures AfterFailedSwap(f.(unlinkRetained := false)).retained == OldSecret
  {}
}
