/**
 What a process of the staging directory does when no other gets in between: a reader returns what is there, and a
 stage can always succeed.
 */
module StagingAlone {
  import opened Options
  import opened Staging

  lemma Stepped(w: World, steps: seq<(nat, Act)>, now: World, pid: nat, act: Act)
    requires Run(w, steps) == now
    ensures Run(w, steps + [(pid, act)]) == Next(now, pid, act)
  {
    assert (steps + [(pid, act)])[..|steps|] == steps;
  }

  // ----- reading -----

  /** What a read finds: the published manifest and its two files, if all three are there. */
  function Found(w: World): Option<Sighting> {
    match Read(w)
    case None => None
    case Some(m) => Some(Sighting(m, DirAt(w, Home(m.version))[Archive], DirAt(w, Home(m.version))[Sidecar]))
  }

  function ReadSteps(pid: nat): seq<(nat, Act)> {
    [(pid, StartRead)] + [(pid, Proceed)] + [(pid, Proceed)] + [(pid, Proceed)]
  }

  function PruneSteps(pid: nat): seq<(nat, Act)> {
    [(pid, StartPrune)] + [(pid, Proceed)] + [(pid, Proceed)] + [(pid, Proceed)]
  }

  function AfterManifest(w: World, prunes: bool): Process {
    if w.staged.Some? then HasManifest(w.staged.value, prunes) else Returned(None)
  }

  function AfterArchive(w: World, prunes: bool): Process {
    if w.staged.Some? && Archive in DirAt(w, Home(w.staged.value.version))
    then HasArchive(w.staged.value, DirAt(w, Home(w.staged.value.version))[Archive], prunes)
    else Returned(None)
  }

  function AfterSidecar(w: World, prunes: bool): Process {
    if prunes && Read(w).Some? then Pruning(Read(w).value.version, false) else Returned(Found(w))
  }

  lemma Again(w: World, pid: nat, p: Process, p': Process)
    ensures Becomes(Becomes(w, pid, p), pid, p') == Becomes(w, pid, p')
  {
    assert w.processes[pid := p][pid := p'] == w.processes[pid := p'];
  }

  lemma LooksForManifest(w: World, pid: nat, prunes: bool)
    ensures Next(Becomes(w, pid, Reading(prunes)), pid, Proceed) == Becomes(w, pid, AfterManifest(w, prunes))
  {
    Again(w, pid, Reading(prunes), AfterManifest(w, prunes));
  }

  lemma LooksForArchive(w: World, pid: nat, prunes: bool)
    ensures Next(Becomes(w, pid, AfterManifest(w, prunes)), pid, Proceed) == Becomes(w, pid, AfterArchive(w, prunes))
  {
    Again(w, pid, AfterManifest(w, prunes), AfterArchive(w, prunes));
  }

  lemma LooksForSidecar(w: World, pid: nat, prunes: bool)
    ensures Next(Becomes(w, pid, AfterArchive(w, prunes)), pid, Proceed) == Becomes(w, pid, AfterSidecar(w, prunes))
  {
    Again(w, pid, AfterArchive(w, prunes), AfterSidecar(w, prunes));
  }

  lemma LooksThrice(w: World, pid: nat, prunes: bool, steps: seq<(nat, Act)>, start: World)
    requires Run(w, steps) == start && start == Becomes(w, pid, Reading(prunes))
    ensures Run(w, steps + [(pid, Proceed)] + [(pid, Proceed)] + [(pid, Proceed)])
            == Becomes(w, pid, AfterSidecar(w, prunes))
  {
    var one, two := Becomes(w, pid, AfterManifest(w, prunes)), Becomes(w, pid, AfterArchive(w, prunes));
    LooksForManifest(w, pid, prunes);
    LooksForArchive(w, pid, prunes);
    LooksForSidecar(w, pid, prunes);
    Stepped(w, steps, start, pid, Proceed);
    Stepped(w, steps + [(pid, Proceed)], one, pid, Proceed);
    Stepped(w, steps + [(pid, Proceed)] + [(pid, Proceed)], two, pid, Proceed);
  }

  lemma StartsAfterNothing(w: World, pid: nat, act: Act)
    ensures Run(w, [(pid, act)]) == Next(w, pid, act)
  {
    Stepped(w, [], w, pid, act);
    assert [] + [(pid, act)] == [(pid, act)];
  }

  /** A reader that nothing disturbs returns what is there, and changes nothing. */
  lemma UndisturbedReadReturns(w: World, pid: nat)
    requires pid !in w.processes
    ensures Run(w, ReadSteps(pid)) == Becomes(w, pid, Returned(Found(w)))
  {
    StartsAfterNothing(w, pid, StartRead);
    LooksThrice(w, pid, false, [(pid, StartRead)], Becomes(w, pid, Reading(false)));
  }

  /** And a prune goes on to remove whatever is not of the version it found, if it found one. */
  lemma UndisturbedPruneKeepsWhatItFound(w: World, pid: nat)
    requires pid !in w.processes
    ensures Run(w, PruneSteps(pid))
            == Becomes(w, pid, match Read(w) case Some(m) => Pruning(m.version, false) case None => Returned(None))
  {
    StartsAfterNothing(w, pid, StartPrune);
    LooksThrice(w, pid, true, [(pid, StartPrune)], Becomes(w, pid, Reading(true)));
  }

  // ----- staging -----

  ghost predicate Steps(w: World, pid: nat, steps: seq<(nat, Act)>, now: World) {
    && Run(w, steps) == now
    && forall k :: 0 <= k < |steps| ==> steps[k].0 == pid
  }

  lemma OneMore(w: World, pid: nat, steps: seq<(nat, Act)>, now: World, act: Act)
    returns (steps': seq<(nat, Act)>, now': World)
    requires Steps(w, pid, steps, now)
    ensures Steps(w, pid, steps', now') && now' == Next(now, pid, act)
    ensures steps' == steps + [(pid, act)]
  {
    steps', now' := steps + [(pid, act)], Next(now, pid, act);
    Stepped(w, steps, now, pid, act);
  }

  predicate Whole(dir: Dir, pid: nat, version: Version) {
    dir == map[Archive := File(pid, version, true), Sidecar := File(pid, version, true)]
  }

  predicate Installs(w: World, pid: nat, version: Version, dir: Dir) {
    && pid in w.processes && w.processes[pid] == Installing(version)
    && Scratch(pid) in w.dirs && w.dirs[Scratch(pid)] == dir
  }

  lemma WritesFile(w: World, pid: nat, version: Version, part: Part, dir: Dir, steps0: seq<(nat, Act)>, now0: World)
    returns (steps: seq<(nat, Act)>, now: World)
    requires Steps(w, pid, steps0, now0) && |steps0| != 0 && Installs(now0, pid, version, dir)
    ensures Steps(w, pid, steps, now) && |steps| != 0 && steps[0] == steps0[0]
    ensures Installs(now, pid, version, dir[part := File(pid, version, true)])
  {
    steps, now := OneMore(w, pid, steps0, now0, BeginFile(part));
    assert Installs(now, pid, version, dir[part := File(pid, version, false)]);
    steps, now := OneMore(w, pid, steps, now, EndFile(part));
    assert dir[part := File(pid, version, false)][part := File(pid, version, true)]
           == dir[part := File(pid, version, true)];
  }

  lemma Downloads(w: World, pid: nat, version: Version) returns (steps: seq<(nat, Act)>, now: World)
    requires pid !in w.processes && ValidVersion(version)
    ensures Steps(w, pid, steps, now) && |steps| != 0 && steps[0] == (pid, StartStage(version))
    ensures pid in now.processes && now.processes[pid] == CheckingArchive(version)
    ensures Scratch(pid) in now.dirs && Whole(now.dirs[Scratch(pid)], pid, version)
  {
    assert Steps(w, pid, [], w);
    steps, now := OneMore(w, pid, [], w, StartStage(version));
    steps, now := WritesFile(w, pid, version, Archive, map[], steps, now);
    var file := File(pid, version, true);
    steps, now := WritesFile(w, pid, version, Sidecar, map[Archive := file], steps, now);
    assert now.dirs[Scratch(pid)] == map[Archive := file, Sidecar := file];
    steps, now := OneMore(w, pid, steps, now, Report(true));
  }

  predicate Ready(w: World, pid: nat, version: Version, p: Process) {
    pid in w.processes && w.processes[pid] == p && Scratch(pid) in w.dirs && Whole(w.dirs[Scratch(pid)], pid, version)
  }

  lemma Checks(w: World, pid: nat, version: Version, steps0: seq<(nat, Act)>, now0: World)
    returns (steps: seq<(nat, Act)>, now: World)
    requires Steps(w, pid, steps0, now0) && |steps0| != 0 && Ready(now0, pid, version, CheckingArchive(version))
    ensures Steps(w, pid, steps, now) && |steps| != 0 && steps[0] == steps0[0]
    ensures Ready(now, pid, version, Emptying(version))
  {
    steps, now := OneMore(w, pid, steps0, now0, Proceed);
    steps, now := OneMore(w, pid, steps, now, Proceed);
  }

  lemma Unlinks(w: World, pid: nat, version: Version, part: Part)
    requires Ready(w, pid, version, Emptying(version))
    ensures var w' := Next(w, pid, Unlink(Home(version), part));
            Ready(w', pid, version, Emptying(version)) && DirAt(w', Home(version)) == DirAt(w, Home(version)) - {part}
  {
  }

  lemma Removes(w: World, pid: nat, version: Version)
    requires Ready(w, pid, version, Emptying(version)) && DirAt(w, Home(version)) == map[]
    ensures var w' := Next(w, pid, Proceed);
            Ready(w', pid, version, Moving(version)) && DirAt(w', Home(version)) == map[]
  {
  }

  lemma Empties(w: World, pid: nat, version: Version, steps0: seq<(nat, Act)>, now0: World)
    returns (steps: seq<(nat, Act)>, now: World)
    requires Steps(w, pid, steps0, now0) && |steps0| != 0 && Ready(now0, pid, version, Emptying(version))
    ensures Steps(w, pid, steps, now) && |steps| != 0 && steps[0] == steps0[0]
    ensures Ready(now, pid, version, Moving(version)) && DirAt(now, Home(version)) == map[]
  {
    Unlinks(now0, pid, version, Archive);
    steps, now := OneMore(w, pid, steps0, now0, Unlink(Home(version), Archive));
    Unlinks(now, pid, version, Sidecar);
    steps, now := OneMore(w, pid, steps, now, Unlink(Home(version), Sidecar));
    assert DirAt(now, Home(version)) == map[] by {
      forall part ensures part !in DirAt(now, Home(version)) {
        match part case Archive => case Sidecar =>
      }
    }
    Removes(now, pid, version);
    steps, now := OneMore(w, pid, steps, now, Proceed);
  }

  /** The version's directory is the stage's own, and the stage is at `p`. */
  predicate Homed(w: World, pid: nat, version: Version, p: Process) {
    pid in w.processes && w.processes[pid] == p && Home(version) in w.dirs && Whole(w.dirs[Home(version)], pid, version)
  }

  lemma Renames(w: World, pid: nat, version: Version)
    requires Ready(w, pid, version, Moving(version)) && DirAt(w, Home(version)) == map[]
    ensures Homed(Next(w, pid, Proceed), pid, version, Noting(version))
  {
  }

  lemma Moves(w: World, pid: nat, version: Version, steps0: seq<(nat, Act)>, now0: World)
    returns (steps: seq<(nat, Act)>, now: World)
    requires Steps(w, pid, steps0, now0) && |steps0| != 0 && Ready(now0, pid, version, CheckingArchive(version))
    ensures Steps(w, pid, steps, now) && |steps| != 0 && steps[0] == steps0[0]
    ensures Homed(now, pid, version, Noting(version))
  {
    steps, now := Checks(w, pid, version, steps0, now0);
    steps, now := Empties(w, pid, version, steps, now);
    Renames(now, pid, version);
    steps, now := OneMore(w, pid, steps, now, Proceed);
  }

  lemma Notes(w: World, pid: nat, version: Version)
    ensures Homed(w, pid, version, Noting(version)) ==>
              Homed(Next(w, pid, Proceed), pid, version, Filling(version)) && pid in Next(w, pid, Proceed).notes
    ensures Homed(w, pid, version, Filling(version)) && pid in w.notes ==>
              && Homed(Next(w, pid, Proceed), pid, version, Publishing(version)) && pid in Next(w, pid, Proceed).notes
              && Next(w, pid, Proceed).notes[pid] == Some(Manifest(version, pid))
  {
  }

  lemma Announces(w: World, pid: nat, version: Version)
    requires Homed(w, pid, version, Publishing(version))
    requires pid in w.notes && w.notes[pid] == Some(Manifest(version, pid))
    ensures Homed(Next(w, pid, Proceed), pid, version, Pruning(version, true))
    ensures Read(Next(w, pid, Proceed)) == Some(Manifest(version, pid))
  {
  }

  lemma Leaves(w: World, pid: nat, version: Version)
    requires Read(w) == Some(Manifest(version, pid))
    ensures Homed(w, pid, version, Pruning(version, true)) ==>
              && Homed(Next(w, pid, Proceed), pid, version, Cleaning(true))
              && Read(Next(w, pid, Proceed)) == Some(Manifest(version, pid))
    ensures Homed(w, pid, version, Cleaning(true)) ==>
              && Homed(Next(w, pid, Proceed), pid, version, Finished(true))
              && Read(Next(w, pid, Proceed)) == Some(Manifest(version, pid))
  {
  }

  lemma Publishes(w: World, pid: nat, version: Version, steps0: seq<(nat, Act)>, now0: World)
    returns (steps: seq<(nat, Act)>, now: World)
    requires Steps(w, pid, steps0, now0) && |steps0| != 0 && Homed(now0, pid, version, Noting(version))
    ensures Steps(w, pid, steps, now) && |steps| != 0 && steps[0] == steps0[0]
    ensures Homed(now, pid, version, Finished(true)) && Read(now) == Some(Manifest(version, pid))
  {
    Notes(now0, pid, version);
    steps, now := OneMore(w, pid, steps0, now0, Proceed);
    Notes(now, pid, version);
    steps, now := OneMore(w, pid, steps, now, Proceed);
    Announces(now, pid, version);
    steps, now := OneMore(w, pid, steps, now, Proceed);
    Leaves(now, pid, version);
    steps, now := OneMore(w, pid, steps, now, Proceed);
    Leaves(now, pid, version);
    steps, now := OneMore(w, pid, steps, now, Proceed);
  }

  /** Whatever is in the directory: a stage that meets no failure and no other process succeeds, and its version is
      then the one that is read, both files whole. */
  lemma LoneStageCanSucceed(w: World, pid: nat, version: Version) returns (steps: seq<(nat, Act)>)
    requires pid !in w.processes && ValidVersion(version)
    ensures |steps| != 0 && steps[0] == (pid, StartStage(version)) && forall k :: 0 <= k < |steps| ==> steps[k].0 == pid
    ensures var now := Run(w, steps);
            && pid in now.processes && now.processes[pid] == Finished(true)
            && Found(now) == Some(Sighting(Manifest(version, pid), File(pid, version, true), File(pid, version, true)))
  {
    var now;
    steps, now := Downloads(w, pid, version);
    steps, now := Moves(w, pid, version, steps, now);
    steps, now := Publishes(w, pid, version, steps, now);
  }
}
