/**
 Restoring a backup: the archive is extracted beside the server folder, which is
 then moved away and replaced. Every operation on the disk may fail.
 */
module Restore {
  import opened Options
  import opened Backup

  const PROPERTIES: Path := ["server.properties"]

  /** An archive file as it lies on the disk; reading every entry to its end tells the two apart. */
  datatype Archive = Readable(entries: seq<Entry>) | Damaged

  datatype Error =
    | NotFound | Corrupt | NoSafetyCopy | NotStaged | DiskError

  datatype Status = Restored | Stopped(error: Error)

  /** What a removal leaves behind when it fails half-way. */
  datatype Removal = Removed | Interrupted(rest: Tree)

  /** Which operations fail, and what they leave behind. */
  datatype Faults = Faults(
    safetyWrite: bool, safetyDamaged: bool, safetyMetadata: bool, parent: bool, createStaging: bool,
    extractStops: Option<nat>, scraps: Tree, removeStaging: Removal,
    renameAway: bool, renameIn: bool, renameBack: bool, removePrevious: Removal)

  /** The folders beside each other, and the safety archive. */
  datatype View = View(root: Option<Tree>, previous: Option<Tree>, staging: Option<Tree>, safety: Option<Archive>)

  class Disk {
    var root: Option<Tree>
    var previous: Option<Tree>
    var staging: Option<Tree>
    var safety: Option<Archive>
    /** Every state the disk has been in. */
    ghost var history: seq<View>

    constructor (tree: Tree)
      ensures Now() == View(Some(tree), None, None, None) && history == []
    {
      root, previous, staging, safety := Some(tree), None, None, None;
      history := [];
    }

    ghost function Now(): View
      reads this
    {
      View(root, previous, staging, safety)
    }

    /** Every state so far, the present one included, is one of these. */
    ghost predicate Always(allowed: View -> bool)
      reads this
    {
      allowed(Now()) && forall i | 0 <= i < |history| :: allowed(history[i])
    }

    method CreateStaging(fails: bool) returns (ok: bool)
      modifies this
      ensures ok == (!fails && old(staging).None?)
      ensures history == old(history) + [old(Now())]
      ensures Now() == if ok then old(Now()).(staging := Some(EMPTY_FOLDER)) else old(Now())
    {
      history := history + [Now()];
      ok := !fails && staging.None?;
      if ok {
        staging := Some(EMPTY_FOLDER);
      }
    }

    method SetStaging(tree: Tree)
      modifies this
      ensures history == old(history) + [old(Now())] && Now() == old(Now()).(staging := Some(tree))
    {
      history := history + [Now()];
      staging := Some(tree);
    }

    method RemoveStaging(removal: Removal)
      modifies this
      ensures history == old(history) + [old(Now())]
      ensures Now() == old(Now()).(staging := if removal.Removed? then None else Some(removal.rest))
    {
      history := history + [Now()];
      staging := if removal.Removed? then None else Some(removal.rest);
    }

    method RemovePrevious(removal: Removal) returns (ok: bool)
      modifies this
      ensures ok == removal.Removed?
      ensures history == old(history) + [old(Now())]
      ensures Now() == old(Now()).(previous := if removal.Removed? then None else Some(removal.rest))
    {
      history := history + [Now()];
      ok := removal.Removed?;
      previous := if removal.Removed? then None else Some(removal.rest);
    }

    /** Moves the server folder out of the way. */
    method RenameAway(fails: bool) returns (ok: bool)
      requires previous.None?
      modifies this
      ensures ok == (!fails && old(root).Some?)
      ensures history == old(history) + [old(Now())]
      ensures Now() == if ok then old(Now()).(root := None, previous := old(root)) else old(Now())
    {
      history := history + [Now()];
      ok := !fails && root.Some?;
      if ok {
        root, previous := None, root;
      }
    }

    /** Moves the extracted folder into place. */
    method RenameIn(fails: bool) returns (ok: bool)
      requires root.None?
      modifies this
      ensures ok == (!fails && old(staging).Some?)
      ensures history == old(history) + [old(Now())]
      ensures Now() == if ok then old(Now()).(root := old(staging), staging := None) else old(Now())
    {
      history := history + [Now()];
      ok := !fails && staging.Some?;
      if ok {
        root, staging := staging, None;
      }
    }

    method RenameBack(fails: bool)
      requires root.None?
      modifies this
      ensures history == old(history) + [old(Now())]
      ensures Now() ==
        if !fails && old(previous).Some? then old(Now()).(root := old(previous), previous := None) else old(Now())
    {
      history := history + [Now()];
      if !fails && previous.Some? {
        root, previous := previous, None;
      }
    }

    /** Saves the folder as it is, and keeps the archive only if it can be read back. */
    method CreateBackup(job: Job, walk: seq<Path>, faults: Faults) returns (ok: bool)
      requires InTree(job, walk)
      modifies this
      ensures ok == SafetySucceeds(job, walk, faults)
      ensures root == old(root) && previous == old(previous) && staging == old(staging)
      ensures ok ==> safety == Some(SafetyArchive(job, walk))
      ensures var written := ArchiveFirst(job, walk, |walk|).Done? && !faults.safetyWrite;
        !ok ==> safety == if written then None else old(safety)
      ensures history == old(history) + [old(Now())]
    {
      history := history + [Now()];
      var archive, _, _ := WriteZip(job, walk);
      if archive.Failed? || faults.safetyWrite {
        return false;
      }
      safety := Some(if faults.safetyDamaged then Damaged else Readable(archive.value));
      if safety == Some(Damaged) || faults.safetyMetadata {
        safety := None;
        return false;
      }
      ok := true;
    }

    /** Extracts entry by entry; None where it stops before the end. */
    method ExtractInto(job: Job, entries: seq<Entry>, faults: Faults) returns (done: bool)
      requires staging == Some(EMPTY_FOLDER)
      modifies this
      ensures done == ExtractSucceeds(job, entries, faults)
      ensures done ==> staging == Some(Extract(job, entries).value)
      ensures root == old(root) && previous == old(previous) && safety == old(safety)
      ensures |history| >= |old(history)| && history[..|old(history)|] == old(history)
      ensures forall i | |old(history)| <= i < |history| ::
        history[i].root == root && history[i].previous == previous && history[i].safety == safety
    {
      var tree := EMPTY_FOLDER;
      for n := 0 to |entries|
        invariant ExtractFirst(job, entries, n) == Done(tree) && staging == Some(tree)
        invariant faults.extractStops.Some? ==> n <= faults.extractStops.value
        invariant root == old(root) && previous == old(previous) && safety == old(safety)
        invariant |history| >= |old(history)| && history[..|old(history)|] == old(history)
        invariant forall i | |old(history)| <= i < |history| ::
          history[i].root == root && history[i].previous == previous && history[i].safety == safety
      {
        var next := Place(job, tree, entries[n]);
        if faults.extractStops == Some(n) || next.Failed? {
          if next.Failed? {
            ExtractFailureStays(job, entries, n + 1, |entries|);
          }
          SetStaging(faults.scraps);
          return false;
        }
        tree := next.value;
        SetStaging(tree);
      }
      done := true;
    }
  }

  predicate SafetySucceeds(job: Job, walk: seq<Path>, faults: Faults)
    requires InTree(job, walk)
  {
    ArchiveFirst(job, walk, |walk|).Done? && !faults.safetyWrite && !faults.safetyDamaged && !faults.safetyMetadata
  }

  function SafetyArchive(job: Job, walk: seq<Path>): Archive
    requires InTree(job, walk)
  {
    match ArchiveFirst(job, walk, |walk|)
    case Done(entries) => Readable(entries)
    case Failed(_) => Damaged
  }

  predicate ExtractSucceeds(job: Job, entries: seq<Entry>, faults: Faults) {
    Extract(job, entries).Done? && (faults.extractStops.None? || faults.extractStops.value >= |entries|)
  }

  /** Has the extracted folder what a server folder needs? */
  predicate HasProperties(tree: Tree) { PROPERTIES in tree && tree[PROPERTIES].File? }

  /** The folder that a successful restoration puts in place. */
  function Result(job: Job, source: Option<Archive>): Option<Tree> {
    match source
    case Some(Readable(entries)) =>
      (match Extract(job, entries)
       case Done(tree) => if HasProperties(tree) then Some(tree) else None
       case Failed(_) => None)
    case _ => None
  }

  /**
   The server folder is complete: the one from before or the restored one, never
   a part of either. While it is not in its place the one from before is kept
   aside, and from the moment it is moved there is a safety archive of it.
   */
  predicate Whole(v: View, original: Tree, result: Option<Tree>, safety: Archive) {
    && (v.root == Some(original)
        || (v.root == None && v.previous == Some(original))
        || (result.Some? && v.root == result))
    && (v.root != Some(original) ==> v.safety == Some(safety) && safety.Readable?)
  }

  function WholeFor(original: Tree, result: Option<Tree>, safety: Archive): View -> bool {
    (v: View) => Whole(v, original, result, safety)
  }

  function Left(removal: Removal): Option<Tree> { if removal.Removed? then None else Some(removal.rest) }

  /** What is found under the name of the staging folder after staging has failed. */
  function NotStagedLeft(faults: Faults): Option<Tree> {
    if faults.parent || faults.createStaging then None else Left(faults.removeStaging)
  }

  /** And after the exchange: a first rename that fails leaves the whole extracted folder behind. */
  function SwapLeft(extracted: Tree, faults: Faults): Option<Tree> {
    if faults.renameAway then Some(extracted)
    else if faults.renameIn then Left(faults.removeStaging)
    else None
  }

  /** Extracts beside the server folder, which is not touched. */
  method Stage(disk: Disk, target: Job, entries: seq<Entry>, original: Tree, safety: Archive, faults: Faults)
    returns (staged: bool)
    requires disk.root == Some(original) && disk.previous.None? && disk.staging.None?
    requires disk.safety == Some(safety) && safety.Readable?
    requires disk.Always(WholeFor(original, Result(target, Some(Readable(entries))), safety))
    modifies disk
    ensures disk.Always(WholeFor(original, Result(target, Some(Readable(entries))), safety))
    ensures disk.root == Some(original) && disk.previous.None? && disk.safety == Some(safety)
    ensures staged == (Result(target, Some(Readable(entries))).Some? && Stageable(target, entries, faults))
    ensures disk.staging == if staged then Result(target, Some(Readable(entries))) else NotStagedLeft(faults)
  {
    if faults.parent {
      return false;
    }
    var created := disk.CreateStaging(faults.createStaging);
    if !created {
      return false;
    }
    var extracted := disk.ExtractInto(target, entries, faults);
    if !extracted || !HasProperties(disk.staging.value) {
      disk.RemoveStaging(faults.removeStaging);
      return false;
    }
    staged := true;
  }

  predicate Stageable(target: Job, entries: seq<Entry>, faults: Faults) {
    !faults.parent && !faults.createStaging && ExtractSucceeds(target, entries, faults)
  }

  /** The extracted folder is complete and ready to be put in place. */
  predicate Staged(source: Option<Archive>, target: Job, before: Job, walk: seq<Path>, faults: Faults)
    requires InTree(before, walk)
  {
    Result(target, source).Some? && SafetySucceeds(before, walk, faults)
    && Stageable(target, source.value.entries, faults)
  }

  /** Where the two folders are when a restoration has ended. */
  datatype Ending = Untouched | Aside | Replaced(rest: Option<Tree>)

  /** How the exchange ends; only the last case without a rest is a success. */
  function SwapEnding(faults: Faults): Ending {
    if faults.renameAway || (faults.renameIn && !faults.renameBack) then Untouched
    else if faults.renameIn then Aside
    else Replaced(if faults.removePrevious.Removed? then None else Some(faults.removePrevious.rest))
  }

  /** What a restoration leaves of the staging folder. */
  function StagingLeft(source: Option<Archive>, target: Job, before: Job, walk: seq<Path>, faults: Faults): Option<Tree>
    requires InTree(before, walk)
  {
    if source.None? || source.value.Damaged? || !SafetySucceeds(before, walk, faults) then None
    else if !Staged(source, target, before, walk, faults) then NotStagedLeft(faults)
    else SwapLeft(Result(target, source).value, faults)
  }

  predicate EndsAs(v: View, ending: Ending, original: Tree, result: Option<Tree>) {
    match ending
    case Untouched => v.root == Some(original) && v.previous == None
    case Aside => v.root == None && v.previous == Some(original)
    case Replaced(rest) => result.Some? && v.root == result && v.previous == rest && v.staging == None
  }

  /** When a restoration gets as far as the exchange. */
  lemma StagedMeans(source: Option<Archive>, target: Job, before: Job, walk: seq<Path>, faults: Faults)
    requires InTree(before, walk)
    ensures Staged(source, target, before, walk, faults) <==>
      && source.Some? && source.value.Readable? && Extract(target, source.value.entries).Done?
      && (var tree := Extract(target, source.value.entries).value;
          ["server.properties"] in tree && tree[["server.properties"]].File?)
      && ArchiveFirst(before, walk, |walk|).Done?
      && !faults.safetyWrite && !faults.safetyDamaged && !faults.safetyMetadata
      && !faults.parent && !faults.createStaging
      && (faults.extractStops.None? || |source.value.entries| <= faults.extractStops.value)
    ensures Staged(source, target, before, walk, faults) ==>
      Result(target, source) == Some(Extract(target, source.value.entries).value)
  {
    hide Extract, ArchiveFirst;
  }

  /** How the exchange ends: where the two folders are, and what is left of the staging folder. */
  lemma EndingMeans(v: View, original: Tree, extracted: Tree, faults: Faults)
    requires EndsAs(v, SwapEnding(faults), original, Some(extracted)) && v.staging == SwapLeft(extracted, faults)
    ensures faults.renameAway ==> v.root == Some(original) && v.previous == None && v.staging == Some(extracted)
    ensures !faults.renameAway && faults.renameIn ==>
      && v.staging == (if faults.removeStaging.Removed? then None else Some(faults.removeStaging.rest))
      && if faults.renameBack then v.root == None && v.previous == Some(original)
         else v.root == Some(original) && v.previous == None
    ensures !faults.renameAway && !faults.renameIn ==>
      && v.root == Some(extracted) && v.staging == None
      && v.previous == if faults.removePrevious.Removed? then None else Some(faults.removePrevious.rest)
    ensures SwapEnding(faults) == Replaced(None) <==>
      !faults.renameAway && !faults.renameIn && faults.removePrevious.Removed?
  {
  }

  /** What is left of the staging folder by a restoration that does not get that far. */
  lemma LeftMeans(source: Option<Archive>, target: Job, before: Job, walk: seq<Path>, faults: Faults)
    requires InTree(before, walk) && !Staged(source, target, before, walk, faults)
    ensures var begun := && source.Some? && source.value.Readable? && ArchiveFirst(before, walk, |walk|).Done?
                         && !faults.safetyWrite && !faults.safetyDamaged && !faults.safetyMetadata
                         && !faults.parent && !faults.createStaging;
      StagingLeft(source, target, before, walk, faults)
      == if begun && faults.removeStaging.Interrupted? then Some(faults.removeStaging.rest) else None
  {
    hide Staged, ArchiveFirst;
  }

  /** Restores the archive; source is what lies under the backup's id. */
  method RestoreBackup(
      disk: Disk, source: Option<Archive>, target: Job, before: Job, walk: seq<Path>, faults: Faults)
    returns (status: Status)
    requires disk.root == Some(before.tree) && before.scope.Full? && InTree(before, walk)
    requires disk.previous.None? && disk.staging.None? && disk.history == []
    modifies disk
    ensures disk.Always(WholeFor(before.tree, Result(target, source), SafetyArchive(before, walk)))
    ensures var ending := if Staged(source, target, before, walk, faults) then SwapEnding(faults) else Untouched;
      EndsAs(disk.Now(), ending, before.tree, Result(target, source))
      && (status.Restored? <==> ending == Replaced(None))
    ensures disk.staging == StagingLeft(source, target, before, walk, faults)
    ensures match status
            case Restored => true
            case Stopped(NotFound) => source.None?
            case Stopped(Corrupt) => source == Some(Damaged)
            case Stopped(NoSafetyCopy) =>
              source.Some? && source.value.Readable? && !SafetySucceeds(before, walk, faults)
            case Stopped(NotStaged) =>
              SafetySucceeds(before, walk, faults) && !Staged(source, target, before, walk, faults)
            case Stopped(DiskError) => Staged(source, target, before, walk, faults)
  {
    if source.None? {
      return Stopped(NotFound);
    }
    if source.value.Damaged? {
      return Stopped(Corrupt);
    }
    var saved := disk.CreateBackup(before, walk, faults);
    if !saved {
      return Stopped(NoSafetyCopy);
    }
    var safety := SafetyArchive(before, walk);
    var staged := Stage(disk, target, source.value.entries, before.tree, safety, faults);
    if !staged {
      return Stopped(NotStaged);
    }
    status := Swap(disk, before.tree, Result(target, source).value, safety, faults);
  }

  /** Puts the extracted folder in the place of the one from before. */
  method Swap(disk: Disk, original: Tree, extracted: Tree, safety: Archive, faults: Faults) returns (status: Status)
    requires disk.root == Some(original) && disk.previous.None? && disk.staging == Some(extracted)
    requires disk.safety == Some(safety) && safety.Readable?
    requires disk.Always(WholeFor(original, Some(extracted), safety))
    modifies disk
    ensures disk.Always(WholeFor(original, Some(extracted), safety))
    ensures EndsAs(disk.Now(), SwapEnding(faults), original, Some(extracted))
    ensures status.Restored? <==> SwapEnding(faults) == Replaced(None)
    ensures disk.staging == SwapLeft(extracted, faults)
    ensures status.Stopped? ==> status.error == DiskError
  {
    var away := disk.RenameAway(faults.renameAway);
    if !away {
      return Stopped(DiskError);
    }
    var placed := disk.RenameIn(faults.renameIn);
    if !placed {
      disk.RenameBack(faults.renameBack);
      disk.RemoveStaging(faults.removeStaging);
      return Stopped(DiskError);
    }
    var cleaned := disk.RemovePrevious(faults.removePrevious);
    if !cleaned {
      return Stopped(DiskError);
    }
    status := Status.Restored;
  }

  /** The safety archive of the folder, extracted again, gives everything of it that a full backup keeps. */
  lemma SafetyArchiveIsComplete(job: Job, walk: seq<Path>)
    requires job.scope.Full? && Rooted(job.tree) && Named(job.tree) && Walks(job, walk) && Sound(job.protector)
    requires SafetyArchive(job, walk).Readable?
    ensures Extract(job, SafetyArchive(job, walk).entries) == Done(KeptTree(job))
    ensures forall p | p in job.tree && p != [] && p[0] != HUB && !job.tree[p].Symlink? ::
      p in KeptTree(job) && KeptTree(job)[p] == After(job.tree[p])
  {
    RoundTrip(job, walk);
  }

  /** Restoring the archive that was just written of a folder puts back what a full backup keeps of it. */
  lemma RestoringTheSafetyArchive(job: Job, walk: seq<Path>)
    requires job.scope.Full? && Rooted(job.tree) && Named(job.tree) && Walks(job, walk) && Sound(job.protector)
    requires SafetyArchive(job, walk).Readable? && PROPERTIES in job.tree && job.tree[PROPERTIES].File?
    ensures Result(job, Some(SafetyArchive(job, walk))) == Some(KeptTree(job))
  {
    SafetyArchiveIsComplete(job, walk);
    assert PROPERTIES[0] != HUB;
  }

  // ---------------------------------------------------------------- errors after the folder was moved

  const NO_FAULTS :=
    Faults(false, false, false, false, false, None, EMPTY_FOLDER, Removed, false, false, false, Removed)

  /** A folder that can be saved in full and, once saved, restored. */
  ghost predicate Restorable(job: Job, walk: seq<Path>) {
    && job.scope.Full? && Rooted(job.tree) && Named(job.tree) && Walks(job, walk) && Sound(job.protector)
    && SafetyArchive(job, walk).Readable? && PROPERTIES in job.tree && job.tree[PROPERTIES].File?
  }

  /** Restores the backup just made of a folder, with these faults. */
  method RestoreOwnBackup(job: Job, walk: seq<Path>, faults: Faults) returns (disk: Disk, status: Status)
    requires Restorable(job, walk) && SafetySucceeds(job, walk, faults)
    requires !faults.parent && !faults.createStaging && faults.extractStops.None?
    ensures fresh(disk) && EndsAs(disk.Now(), SwapEnding(faults), job.tree, Some(KeptTree(job)))
    ensures status.Restored? <==> SwapEnding(faults) == Replaced(None)
    ensures disk.staging == SwapLeft(KeptTree(job), faults)
  {
    RestoringTheSafetyArchive(job, walk);
    disk := new Disk(job.tree);
    status := RestoreBackup(disk, Some(SafetyArchive(job, walk)), job, job, walk, faults);
  }

  /** An error with the folder aside and nothing in its place: both renames have failed. */
  method StopsAside(job: Job, walk: seq<Path>) returns (disk: Disk, status: Status)
    requires Restorable(job, walk)
    ensures status.Stopped? && disk.root.None? && disk.previous == Some(job.tree)
  {
    disk, status := RestoreOwnBackup(job, walk, NO_FAULTS.(renameIn := true, renameBack := true));
  }

  /** An error although the restored folder is in place: only the removal of the old one was interrupted. */
  method StopsReplaced(job: Job, walk: seq<Path>, rest: Tree) returns (disk: Disk, status: Status)
    requires Restorable(job, walk)
    ensures status.Stopped? && disk.root == Some(KeptTree(job)) && disk.previous == Some(rest)
  {
    disk, status := RestoreOwnBackup(job, walk, NO_FAULTS.(removePrevious := Interrupted(rest)));
  }

  /** An error that changes neither folder, but leaves the whole extracted one beside them. */
  method StopsBeside(job: Job, walk: seq<Path>) returns (disk: Disk, status: Status)
    requires Restorable(job, walk)
    ensures status.Stopped? && disk.root == Some(job.tree) && disk.previous.None?
    ensures disk.staging == Some(KeptTree(job))
  {
    disk, status := RestoreOwnBackup(job, walk, NO_FAULTS.(renameAway := true));
  }

  const SAMPLE_WALK: seq<Path> := [[], PROPERTIES]

  /** A server folder that holds nothing but its properties. */
  function SampleJob(): Job {
    Job(map[[] := Dir, PROPERTIES := File([])], Profile("", false), Full, "",
        Protector((scope: string, bytes: Bytes) => None, (scope: string, bytes: Bytes) => None,
                  (bytes: Bytes) => false))
  }

  /** There are such folders. */
  lemma SampleIsRestorable()
    ensures Restorable(SampleJob(), SAMPLE_WALK)
  {
    hide Joined, Essential, ArchiveFirst;
    var job := SampleJob();
    assert Parent(PROPERTIES) == [] && SAMPLE_WALK[..1] == [[]];
    WritingFailsExactly(job, SAMPLE_WALK, |SAMPLE_WALK|);
  }
}
