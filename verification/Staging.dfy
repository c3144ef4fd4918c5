/**
 Staging of updates: processes that share one directory and take its operations one at a time. A
 process that crashes is one that takes no further step. Removing a tree is any number of unlinks by
 path, each a step of its own; a rename is one step.
 */
module Staging {
  import opened Options

  type Version = string

  datatype Part = Archive | Sidecar

  /** Which stage wrote the file and whether the writing was finished. */
  datatype File = File(stage: nat, version: Version, whole: bool)

  type Dir = map<Part, File>

  /** `Scratch` is a stage's own download directory, `Home` the directory of a version. */
  datatype Place = Scratch(stage: nat) | Home(of: Version)

  datatype Manifest = Manifest(version: Version, stage: nat)

  /** What a read returned: the manifest and the two files it looked at. */
  datatype Sighting = Sighting(manifest: Manifest, archive: File, sidecar: File)

  /** A stage goes through the first states up to `Cleaning`, which is its `finally`; `Pruning` also ends
      a prune of its own. A reader ends in `Returned` with what it found. */
  datatype Process =
    | Installing(version: Version)
    | CheckingArchive(version: Version)
    | CheckingSidecar(version: Version)
    | Emptying(version: Version)
    | Moving(version: Version)
    | Noting(version: Version)
    | Filling(version: Version)
    | Publishing(version: Version)
    | Pruning(keep: Version, stage: bool)
    | Cleaning(ok: bool)
    | Finished(ok: bool)
    | Reading(prunes: bool)
    | HasManifest(manifest: Manifest, prunes: bool)
    | HasArchive(manifest: Manifest, archive: File, prunes: bool)
    | Returned(found: Option<Sighting>)
    | Clearing

  /** `notes` are the manifests on their way, by stage, none while unfinished; `staged` is the published
      one. `succeeded` records the stages whose installer succeeded and left both files. */
  datatype World = World(
    dirs: map<Place, Dir>, notes: map<nat, Option<Manifest>>, staged: Option<Manifest>,
    processes: map<nat, Process>, succeeded: map<nat, Version>)

  const EMPTY := World(map[], map[], None, map[], map[])

  datatype Act =
    | StartStage(version: Version) | StartRead | StartPrune | StartClear
    | BeginFile(part: Part) | EndFile(part: Part) | Report(success: bool)
    | Unlink(place: Place, part: Part) | Rmdir(place: Place) | UnlinkNote(stage: nat) | UnlinkManifest
    | Proceed | Fail

  predicate IsLabel(c: char) { '0' <= c <= '9' || 'A' <= c <= 'Z' || 'a' <= c <= 'z' || c == '.' || c == '-' }

  predicate ValidVersion(v: Version) { v != "" && '0' <= v[0] <= '9' && forall c <- v :: IsLabel(c) }

  function DirAt(w: World, place: Place): Dir { if place in w.dirs then w.dirs[place] else map[] }

  function Becomes(w: World, pid: nat, p: Process): World { w.(processes := w.processes[pid := p]) }

  /** What a read at one instant would return. */
  function Read(w: World): Option<Manifest> {
    if w.staged.Some? && Archive in DirAt(w, Home(w.staged.value.version))
       && Sidecar in DirAt(w, Home(w.staged.value.version))
    then w.staged else None
  }

  predicate MayUnlink(p: Process, pid: nat, place: Place) {
    match p
    case Emptying(version) => place == Home(version)
    case Pruning(keep, _) => place != Home(keep)
    case Cleaning(_) => place == Scratch(pid)
    case Clearing => true
    case _ => false
  }

  function Started(w: World, pid: nat, act: Act): World {
    match act
    case StartStage(version) =>
      if ValidVersion(version) then Becomes(w.(dirs := w.dirs[Scratch(pid) := map[]]), pid, Installing(version)) else w
    case StartRead => Becomes(w, pid, Reading(false))
    case StartPrune => Becomes(w, pid, Reading(true))
    case StartClear => Becomes(w, pid, Clearing)
    case _ => w
  }

  /** The installer writes into the scratch directory, if that is still there. */
  function WithFile(w: World, pid: nat, part: Part, file: File): World {
    if Scratch(pid) in w.dirs then w.(dirs := w.dirs[Scratch(pid) := w.dirs[Scratch(pid)][part := file]]) else w
  }

  function Proceeded(w: World, pid: nat, p: Process): World {
    var scratch := DirAt(w, Scratch(pid));
    match p
    case CheckingArchive(version) =>
      Becomes(w, pid, if Archive in scratch then CheckingSidecar(version) else Cleaning(false))
    case CheckingSidecar(version) =>
      if Sidecar in scratch then Becomes(w, pid, Emptying(version)).(succeeded := w.succeeded[pid := version])
      else Becomes(w, pid, Cleaning(false))
    case Emptying(version) => // the last step of the removal, which fails if something came back
      if DirAt(w, Home(version)) != map[] then Becomes(w, pid, Cleaning(false))
      else Becomes(w.(dirs := w.dirs - {Home(version)}), pid, Moving(version))
    case Moving(version) => // a rename, onto nothing or an empty directory
      if Scratch(pid) !in w.dirs || DirAt(w, Home(version)) != map[] then Becomes(w, pid, Cleaning(false))
      else Becomes(w.(dirs := w.dirs[Home(version) := scratch] - {Scratch(pid)}), pid, Noting(version))
    case Noting(version) => Becomes(w.(notes := w.notes[pid := None]), pid, Filling(version))
    case Filling(version) =>
      if pid in w.notes
      then Becomes(w.(notes := w.notes[pid := Some(Manifest(version, pid))]), pid, Publishing(version))
      else Becomes(w, pid, Publishing(version))
    case Publishing(version) => // a rename again
      if pid in w.notes then Becomes(w.(staged := w.notes[pid], notes := w.notes - {pid}), pid, Pruning(version, true))
      else Becomes(w, pid, Cleaning(false))
    case Pruning(_, stage) => Becomes(w, pid, if stage then Cleaning(true) else Finished(true))
    case Cleaning(ok) => Becomes(w, pid, Finished(ok))
    case Reading(prunes) =>
      Becomes(w, pid, if w.staged.Some? then HasManifest(w.staged.value, prunes) else Returned(None))
    case HasManifest(m, prunes) =>
      var home := DirAt(w, Home(m.version));
      Becomes(w, pid, if Archive in home then HasArchive(m, home[Archive], prunes) else Returned(None))
    case HasArchive(m, archive, prunes) =>
      var home := DirAt(w, Home(m.version));
      Becomes(w, pid, if Sidecar !in home then Returned(None)
                      else if prunes then Pruning(m.version, false)
                      else Returned(Some(Sighting(m, archive, home[Sidecar]))))
    case Clearing => Becomes(w, pid, Finished(true))
    case _ => w
  }

  /** An operation fails or the download is aborted: the stage goes to its `finally`, a prune or clear gives up. */
  function Failed(w: World, pid: nat, p: Process): World {
    match p
    case Publishing(_) => Becomes(w.(notes := w.notes - {pid}), pid, Cleaning(false))
    case Pruning(_, stage) => Becomes(w, pid, if stage then Cleaning(true) else Finished(true))
    case Cleaning(_) => Becomes(w, pid, Finished(false))
    case Clearing => Becomes(w, pid, Finished(true))
    case Finished(_) => w
    case Returned(_) => w
    case Reading(_) => Becomes(w, pid, Returned(None))
    case HasManifest(_, _) => Becomes(w, pid, Returned(None))
    case HasArchive(_, _, _) => Becomes(w, pid, Returned(None))
    case _ => Becomes(w, pid, Cleaning(false))
  }

  /** One step of one process; a step it cannot take changes nothing. */
  function Next(w: World, pid: nat, act: Act): World {
    if pid !in w.processes then Started(w, pid, act)
    else
      var p := w.processes[pid];
      match act
      case BeginFile(part) => if p.Installing? then WithFile(w, pid, part, File(pid, p.version, false)) else w
      case EndFile(part) =>
        if p.Installing? && part in DirAt(w, Scratch(pid))
        then WithFile(w, pid, part, File(pid, p.version, true)) else w
      case Report(success) =>
        if !p.Installing? then w
        else if !success then Becomes(w, pid, Cleaning(false))
        else if forall part <- DirAt(w, Scratch(pid)) :: DirAt(w, Scratch(pid))[part].whole
        then Becomes(w, pid, CheckingArchive(p.version))
        else w
      case Unlink(place, part) =>
        if MayUnlink(p, pid, place) && place in w.dirs then w.(dirs := w.dirs[place := w.dirs[place] - {part}]) else w
      case Rmdir(place) =>
        if MayUnlink(p, pid, place) && DirAt(w, place) == map[] then w.(dirs := w.dirs - {place}) else w
      case UnlinkNote(stage) => if p.Clearing? then w.(notes := w.notes - {stage}) else w
      case UnlinkManifest => if p.Clearing? then w.(staged := None) else w
      case Proceed => Proceeded(w, pid, p)
      case Fail => Failed(w, pid, p)
      case _ => w
  }

  function Run(w: World, steps: seq<(nat, Act)>): World {
    if |steps| == 0 then w
    else Next(Run(w, steps[..|steps| - 1]), steps[|steps| - 1].0, steps[|steps| - 1].1)
  }
}
