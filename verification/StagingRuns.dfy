/**
 What a read of the staging directory may find, over every interleaving of stages, reads, prunes and
 clears with a crash at any step, and while one stage runs alone.
 */
module StagingRuns {
  import opened Options
  import opened Staging

  // ----- every interleaving -----

  /** A file as a successful stage of that version left it. */
  ghost predicate Good(succeeded: map<nat, Version>, version: Version, file: File) {
    file.whole && file.version == version && file.stage in succeeded && succeeded[file.stage] == version
  }

  ghost predicate GoodManifest(succeeded: map<nat, Version>, m: Manifest) {
    m.stage in succeeded && succeeded[m.stage] == m.version
  }

  /** The files of one version's directory are good, and all of one stage. */
  ghost predicate GoodHome(succeeded: map<nat, Version>, version: Version, home: Dir) {
    && (forall part <- home :: Good(succeeded, version, home[part]))
    && (forall a, b :: a in home && b in home ==> home[a].stage == home[b].stage)
  }

  /** The download directory of a stage: files of its own version, finished once the installer is. */
  ghost predicate GoodScratch(scratch: Dir, pid: nat, version: Version, finished: bool) {
    forall part <- scratch :: scratch[part].stage == pid && scratch[part].version == version
        && (finished ==> scratch[part].whole)
  }

  ghost predicate GoodSighting(succeeded: map<nat, Version>, s: Sighting) {
    GoodManifest(succeeded, s.manifest) && Good(succeeded, s.manifest.version, s.archive)
        && Good(succeeded, s.manifest.version, s.sidecar)
  }

  ghost predicate Succeeded(w: World, pid: nat, version: Version) { pid in w.succeeded && w.succeeded[pid] == version }

  ghost predicate GoodProcess(w: World, pid: nat, p: Process) {
    match p
    case Installing(version) => GoodScratch(DirAt(w, Scratch(pid)), pid, version, false) && pid !in w.succeeded
    case CheckingArchive(version) => GoodScratch(DirAt(w, Scratch(pid)), pid, version, true) && pid !in w.succeeded
    case CheckingSidecar(version) => GoodScratch(DirAt(w, Scratch(pid)), pid, version, true) && pid !in w.succeeded
    case Emptying(version) => GoodScratch(DirAt(w, Scratch(pid)), pid, version, true) && Succeeded(w, pid, version)
    case Moving(version) => GoodScratch(DirAt(w, Scratch(pid)), pid, version, true) && Succeeded(w, pid, version)
    case Noting(version) => Succeeded(w, pid, version)
    case Filling(version) => Succeeded(w, pid, version)
    case Publishing(version) => Succeeded(w, pid, version)
    case HasManifest(m, _) => GoodManifest(w.succeeded, m)
    case HasArchive(m, archive, _) => GoodManifest(w.succeeded, m) && Good(w.succeeded, m.version, archive)
    case Returned(found) =>
      found.Some? ==> GoodSighting(w.succeeded, found.value)
    case _ => true
  }

  ghost predicate Honest(w: World) {
    && (forall version :: GoodHome(w.succeeded, version, DirAt(w, Home(version))))
    && (forall pid <- w.processes :: GoodProcess(w, pid, w.processes[pid]))
    && (w.staged.Some? ==> GoodManifest(w.succeeded, w.staged.value))
    && (forall pid <- w.notes :: w.notes[pid].Some? ==> GoodManifest(w.succeeded, w.notes[pid].value))
    && (forall pid <- w.succeeded :: pid in w.processes)
  }

  // One step, seen from one directory and from the record of successes.

  ghost predicate Within(small: Dir, large: Dir) { forall part <- small :: part in large && small[part] == large[part] }

  lemma DirectoryStep(w: World, pid: nat, act: Act, place: Place)
    ensures var dir, dir' := DirAt(w, place), DirAt(Next(w, pid, act), place);
            || Within(dir', dir)
            || (&& pid in w.processes && w.processes[pid].Installing? && place == Scratch(pid)
               && (act.BeginFile? || act.EndFile?)
                && dir' == dir[act.part := File(pid, w.processes[pid].version, act.EndFile?)])
            || (&& pid in w.processes && w.processes[pid].Moving? && place == Home(w.processes[pid].version)
                && dir' == DirAt(w, Scratch(pid)))
  {
  }

  ghost predicate Grows(succeeded: map<nat, Version>, succeeded': map<nat, Version>) {
    forall stage <- succeeded :: stage in succeeded' && succeeded'[stage] == succeeded[stage]
  }

  lemma SuccessStep(w: World, pid: nat, act: Act)
    requires Honest(w)
    ensures var w' := Next(w, pid, act);
            && Grows(w.succeeded, w'.succeeded)
            && (forall stage <- w'.succeeded :: stage in w.succeeded || (stage == pid && pid in w.processes))
  {
    assert pid in w.processes ==> GoodProcess(w, pid, w.processes[pid]);
  }

  ghost predicate TouchesOnly(w: World, w': World, pid: nat) {
    && (forall other <- w.processes :: other in w'.processes)
    && (forall other <- w'.processes ::
         other == pid || (other in w.processes && w'.processes[other] == w.processes[other]))
  }

  lemma ProceedingTouchesOnly(w: World, pid: nat, p: Process)
    ensures TouchesOnly(w, Proceeded(w, pid, p), pid)
  {
  }

  lemma ProcessStep(w: World, pid: nat, act: Act)
    ensures TouchesOnly(w, Next(w, pid, act), pid)
  {
    if pid in w.processes && act.Proceed? {
      ProceedingTouchesOnly(w, pid, w.processes[pid]);
    }
  }

  lemma HomesStayGood(w: World, pid: nat, act: Act, version: Version)
    requires Honest(w)
    ensures GoodHome(Next(w, pid, act).succeeded, version, DirAt(Next(w, pid, act), Home(version)))
  {
    assert GoodHome(w.succeeded, version, DirAt(w, Home(version)));
    assert pid in w.processes ==> GoodProcess(w, pid, w.processes[pid]);
    DirectoryStep(w, pid, act, Home(version));
    SuccessStep(w, pid, act);
  }

  lemma OthersStayGood(w: World, actor: nat, act: Act, pid: nat, p: Process)
    requires Honest(w) && pid != actor && GoodProcess(w, pid, p)
    ensures GoodProcess(Next(w, actor, act), pid, p)
  {
    DirectoryStep(w, actor, act, Scratch(pid));
    SuccessStep(w, actor, act);
  }

  lemma NewcomerIsGood(w: World, pid: nat, act: Act)
    requires Honest(w) && pid !in w.processes
    ensures var w' := Next(w, pid, act); pid in w'.processes ==> GoodProcess(w', pid, w'.processes[pid])
  {
  }

  lemma ProceedingStaysGood(w: World, pid: nat, p: Process)
    requires Honest(w) && pid in w.processes && w.processes[pid] == p
    ensures var w' := Proceeded(w, pid, p); pid in w'.processes && GoodProcess(w', pid, w'.processes[pid])
  {
    assert GoodProcess(w, pid, p);
    if p.HasManifest? || p.HasArchive? {
      assert GoodHome(w.succeeded, p.manifest.version, DirAt(w, Home(p.manifest.version)));
    }
  }

  lemma FailingStaysGood(w: World, pid: nat, p: Process)
    requires Honest(w) && pid in w.processes && w.processes[pid] == p
    ensures var w' := Failed(w, pid, p); pid in w'.processes && GoodProcess(w', pid, w'.processes[pid])
  {
    assert GoodProcess(w, pid, p);
  }

  lemma InstallerStaysGood(w: World, pid: nat, act: Act)
    requires Honest(w) && pid in w.processes && w.processes[pid].Installing? && !act.Proceed? && !act.Fail?
    ensures var w' := Next(w, pid, act); pid in w'.processes && GoodProcess(w', pid, w'.processes[pid])
  {
    assert GoodProcess(w, pid, w.processes[pid]);
    DirectoryStep(w, pid, act, Scratch(pid));
  }

  lemma RemoverStaysGood(w: World, pid: nat, act: Act)
    requires Honest(w) && pid in w.processes && !w.processes[pid].Installing? && !act.Proceed? && !act.Fail?
    ensures var w' := Next(w, pid, act); pid in w'.processes && GoodProcess(w', pid, w'.processes[pid])
  {
    assert GoodProcess(w, pid, w.processes[pid]);
    DirectoryStep(w, pid, act, Scratch(pid));
    assert Next(w, pid, act).processes == w.processes && Next(w, pid, act).succeeded == w.succeeded;
  }

  lemma ActorStaysGood(w: World, pid: nat, act: Act)
    requires Honest(w) && pid in w.processes
    ensures var w' := Next(w, pid, act); pid in w'.processes && GoodProcess(w', pid, w'.processes[pid])
  {
    if act.Proceed? {
      ProceedingStaysGood(w, pid, w.processes[pid]);
    } else if act.Fail? {
      FailingStaysGood(w, pid, w.processes[pid]);
    } else if w.processes[pid].Installing? {
      InstallerStaysGood(w, pid, act);
    } else {
      RemoverStaysGood(w, pid, act);
    }
  }

  lemma ManifestsStayGood(w: World, pid: nat, act: Act)
    requires Honest(w)
    ensures var w' := Next(w, pid, act);
            && (w'.staged.Some? ==> GoodManifest(w.succeeded, w'.staged.value))
            && (forall stage <- w'.notes :: w'.notes[stage].Some? ==> GoodManifest(w.succeeded, w'.notes[stage].value))
  {
    assert pid in w.processes ==> GoodProcess(w, pid, w.processes[pid]);
  }

  lemma NextIsHonest(w: World, pid: nat, act: Act)
    requires Honest(w)
    ensures Honest(Next(w, pid, act))
  {
    var w' := Next(w, pid, act);
    forall version ensures GoodHome(w'.succeeded, version, DirAt(w', Home(version))) {
      HomesStayGood(w, pid, act, version);
    }
    ManifestsStayGood(w, pid, act);
    SuccessStep(w, pid, act);
    ProcessStep(w, pid, act);
    forall other | other in w'.processes ensures GoodProcess(w', other, w'.processes[other]) {
      if other != pid {
        OthersStayGood(w, pid, act, other, w.processes[other]);
      } else if pid in w.processes {
        ActorStaysGood(w, pid, act);
      } else {
        NewcomerIsGood(w, pid, act);
      }
    }
  }

  /** Whatever the processes do and wherever they crash, what is left is honest. */
  lemma {:induction false} RunIsHonest(w: World, steps: seq<(nat, Act)>)
    requires Honest(w)
    ensures Honest(Run(w, steps))
    decreases |steps|
  {
    if |steps| != 0 {
      RunIsHonest(w, steps[..|steps| - 1]);
      NextIsHonest(Run(w, steps[..|steps| - 1]), steps[|steps| - 1].0, steps[|steps| - 1].1);
    }
  }

  /** A read finds nothing, or a version whose archive and sidecar came whole from one successful stage of it. */
  lemma ReadIsHonest(steps: seq<(nat, Act)>)
    ensures var w := Run(EMPTY, steps);
            Read(w).Some? ==>
              && GoodManifest(w.succeeded, Read(w).value)
              && var home := DirAt(w, Home(Read(w).value.version));
                 && Archive in home && Sidecar in home && home[Archive].stage == home[Sidecar].stage
                 && Good(w.succeeded, Read(w).value.version, home[Archive])
                 && Good(w.succeeded, Read(w).value.version, home[Sidecar])
  {
    RunIsHonest(EMPTY, steps);
    var w := Run(EMPTY, steps);
    if Read(w).Some? {
      assert GoodHome(w.succeeded, Read(w).value.version, DirAt(w, Home(Read(w).value.version)));
    }
  }

  /** So does a read that other processes interrupt between its three looks, file by file. */
  lemma InterruptedReadIsHonest(steps: seq<(nat, Act)>, pid: nat)
    ensures var w := Run(EMPTY, steps);
            pid in w.processes && w.processes[pid].Returned? && w.processes[pid].found.Some? ==>
              GoodSighting(w.succeeded, w.processes[pid].found.value)
  {
    RunIsHonest(EMPTY, steps);
    var w := Run(EMPTY, steps);
    assert pid in w.processes ==> GoodProcess(w, pid, w.processes[pid]);
  }

  // ----- one stage alone -----

  predicate Both(dir: Dir) { Archive in dir && Sidecar in dir }

  predicate Published(w: World, pid: nat, version: Version) { w.staged == Some(Manifest(version, pid)) }

  ghost predicate SameElsewhere(w0: World, w: World, version: Version) {
    forall other :: other != version ==> DirAt(w, Home(other)) == DirAt(w0, Home(other))
  }

  /** What a stage running alone has reached, before it publishes. */
  predicate Underway(w: World, pid: nat, version: Version, p: Process) {
    match p
    case Installing(v) => v == version
    case CheckingArchive(v) => v == version
    case CheckingSidecar(v) => v == version && Archive in DirAt(w, Scratch(pid))
    case Emptying(v) => v == version && Both(DirAt(w, Scratch(pid)))
    case Moving(v) => v == version && Both(DirAt(w, Scratch(pid)))
    case Noting(v) => v == version && Both(DirAt(w, Home(version)))
    case Filling(v) => v == version && Both(DirAt(w, Home(version))) && pid in w.notes
    case Publishing(v) => v == version && Both(DirAt(w, Home(version))) && pid in w.notes
        && w.notes[pid] == Some(Manifest(version, pid))
    case Cleaning(ok) => !ok
    case Finished(ok) => !ok
    case _ => false
  }

  ghost predicate Alone(w0: World, w: World, pid: nat, version: Version) {
    && pid in w.processes
    && var p := w.processes[pid];
       if Published(w, pid, version) then
         Both(DirAt(w, Home(version))) && (p == Pruning(version, true) || p.Cleaning? || p.Finished?)
       else
         w.staged == w0.staged && SameElsewhere(w0, w, version) && Underway(w, pid, version, p)
  }

  lemma ProceedingPublished(w0: World, w: World, pid: nat, version: Version, p: Process)
    requires Alone(w0, w, pid, version) && w.processes[pid] == p && Published(w, pid, version)
    ensures Alone(w0, Proceeded(w, pid, p), pid, version)
  {
  }

  lemma ProceedingDownload(w0: World, w: World, pid: nat, version: Version, p: Process)
    requires Alone(w0, w, pid, version) && w.processes[pid] == p && !Published(w, pid, version)
    requires p.Installing? || p.CheckingArchive? || p.CheckingSidecar? || p.Emptying?
    ensures Alone(w0, Proceeded(w, pid, p), pid, version)
  {
  }

  lemma ProceedingPublication(w0: World, w: World, pid: nat, version: Version, p: Process)
    requires Alone(w0, w, pid, version) && w.processes[pid] == p && !Published(w, pid, version)
    requires !(p.Installing? || p.CheckingArchive? || p.CheckingSidecar? || p.Emptying?)
    ensures Alone(w0, Proceeded(w, pid, p), pid, version)
  {
  }

  lemma ProceedingAlone(w0: World, w: World, pid: nat, version: Version, p: Process)
    requires Alone(w0, w, pid, version) && w.processes[pid] == p
    ensures Alone(w0, Proceeded(w, pid, p), pid, version)
  {
    if Published(w, pid, version) {
      ProceedingPublished(w0, w, pid, version, p);
    } else if p.Installing? || p.CheckingArchive? || p.CheckingSidecar? || p.Emptying? {
      ProceedingDownload(w0, w, pid, version, p);
    } else {
      ProceedingPublication(w0, w, pid, version, p);
    }
  }

  lemma FailingAlone(w0: World, w: World, pid: nat, version: Version, p: Process)
    requires Alone(w0, w, pid, version) && w.processes[pid] == p
    ensures Alone(w0, Failed(w, pid, p), pid, version)
  {
  }

  lemma OtherStepsAlone(w0: World, w: World, pid: nat, version: Version, act: Act)
    requires Alone(w0, w, pid, version) && !act.Proceed? && !act.Fail?
    ensures Alone(w0, Next(w, pid, act), pid, version)
  {
  }

  lemma {:induction false} RunAlone(w0: World, pid: nat, version: Version, steps: seq<(nat, Act)>)
    requires Honest(w0) && pid !in w0.processes && ValidVersion(version)
    requires |steps| != 0 && steps[0] == (pid, StartStage(version))
             && forall k :: 0 <= k < |steps| ==> steps[k].0 == pid
    ensures Alone(w0, Run(w0, steps), pid, version)
    decreases |steps|
  {
    var before, act := steps[..|steps| - 1], steps[|steps| - 1].1;
    if |steps| == 1 {
      assert Run(w0, before) == w0;
      assert w0.staged != Some(Manifest(version, pid));
    } else {
      RunAlone(w0, pid, version, before);
      var w := Run(w0, before);
      if act.Proceed? {
        ProceedingAlone(w0, w, pid, version, w.processes[pid]);
      } else if act.Fail? {
        FailingAlone(w0, w, pid, version, w.processes[pid]);
      } else {
        OtherStepsAlone(w0, w, pid, version, act);
      }
    }
  }

  /** While one stage runs alone a read finds what it found before, nothing, or the new version; another
      version staged before stays readable up to the instant the new one is published, and the new one
      from then on; a stage that returns has published. */
  lemma LoneStageSwitchesOnce(w0: World, pid: nat, version: Version, steps: seq<(nat, Act)>)
    requires Honest(w0) && pid !in w0.processes && ValidVersion(version)
    requires |steps| != 0 && steps[0] == (pid, StartStage(version))
             && forall k :: 0 <= k < |steps| ==> steps[k].0 == pid
    ensures var w := Run(w0, steps);
            && (Read(w) == Read(w0) || Read(w).None? || Read(w).value.version == version)
            && (Published(w, pid, version) ==> Read(w) == Some(Manifest(version, pid)))
            && (!Published(w, pid, version) && (w0.staged.Some? ==> w0.staged.value.version != version) ==>
               Read(w) == Read(w0))
            && pid in w.processes && (w.processes[pid] == Finished(true) ==> Published(w, pid, version))
  {
    RunAlone(w0, pid, version, steps);
  }
}
