/**
 Why writing an archive fails, and what becomes of each entry when it is
 extracted, said of the folder and of the components of the name.
 */
module BackupOutcomes {
  import opened Options
  import opened Text
  import opened Backup
  import opened BackupSelection

  // ---------------------------------------------------------------- writing

  /** Why a path cannot be written; only the settings of a Palworld server ever fail. */
  ghost function Obstacle(job: Job, p: Path): Option<Failure> {
    if !Kept(job, p) || !job.tree[p].File? || !job.profile.palworld || !IsSettings(p) then None
    else if |job.tree[p].bytes| > 8388608 then Some(TooLarge)
    else if Protection(job, job.tree[p].bytes).None? then Some(NotProtected)
    else None
  }

  /** The protected form for the scope of this profile, this backup and the settings. */
  function Protection(job: Job, bytes: Bytes): Option<Bytes> {
    job.protector.protect(
      job.profile.id + ['\U{1F}'] + job.backupId + ['\U{1F}'] + "pal/saved/config/windowsserver/palworldsettings.ini",
      bytes)
  }

  lemma EntryFails(job: Job, p: Path)
    requires Named(job.tree) && Kept(job, p)
    ensures match EntryFor(job, p)
            case Failed(failure) => Obstacle(job, p) == Some(failure)
            case Done(_) => Obstacle(job, p) == None
  {
    hide Lowercase, Joined, Essential, IsSettings;
    NamesAreComponents(job, p);
    SecretMeans(job, p);
  }

  /** Writing ends with the first obstacle on the walk, or with an archive where there is none. */
  lemma {:induction false} WritingEnds(job: Job, walk: seq<Path>, n: nat)
    requires n <= |walk| && InTree(job, walk) && Named(job.tree)
    ensures match ArchiveFirst(job, walk, n)
            case Failed(failure) =>
              exists m | 0 <= m < n :: Obstacle(job, walk[m]) == Some(failure)
                && forall k | 0 <= k < m :: Obstacle(job, walk[k]) == None
            case Done(_) => forall m | 0 <= m < n :: Obstacle(job, walk[m]) == None
  {
    hide EntryFor, Obstacle;
    if n > 0 {
      WritingEnds(job, walk, n - 1);
      if Kept(job, walk[n - 1]) {
        EntryFails(job, walk[n - 1]);
      } else {
        NoObstacle(job, walk[n - 1]);
      }
    }
  }

  lemma NoObstacle(job: Job, p: Path)
    requires !Kept(job, p)
    ensures Obstacle(job, p) == None
  {
  }

  // ---------------------------------------------------------------- extracting one entry

  /** A name that leads out of the folder or is none of a file system. */
  predicate Escapes(name: Path) {
    exists i | 0 <= i < |name| ::
      name[i] in {"", ".", ".."} || exists k | 0 <= k < |name[i]| :: name[i][k] in "/\\\0"
  }

  lemma EscapesExactly(name: Path)
    ensures Enclosed(name) <==> !Escapes(name)
  {
    forall i | 0 <= i < |name|
      ensures Ordinary(name[i]) <==>
        name[i] !in {"", ".", ".."} && !exists k | 0 <= k < |name[i]| :: name[i][k] in "/\\\0"
    {
      ComponentIs(name[i]);
    }
  }

  lemma ComponentIs(s: string)
    ensures Ordinary(s) <==> s !in {"", ".", ".."} && !exists k | 0 <= k < |s| :: s[k] in "/\\\0"
  {
    forall c: char ensures c in "/\\\0" <==> c == '/' || c == '\\' || c == '\0' {
      assert "/\\\0"[0] == '/' && "/\\\0"[1] == '\\' && "/\\\0"[2] == '\0';
    }
    if exists k | 0 <= k < |s| :: s[k] in "/\\\0" {
      var k :| 0 <= k < |s| && s[k] in "/\\\0";
      assert s[k] in s;
    }
  }

  /** The folder q is p itself or one above it. */
  predicate Above(q: Path, p: Path) { q != [] && q <= p }

  /** Something on the way to p, or p itself, is there and no folder. */
  predicate Obstructed(tree: Tree, p: Path) { exists q: Path :: Above(q, p) && q in tree && tree[q] != Dir }

  /** What the folders on the way to p make of a tree. */
  ghost predicate MadeFolders(tree: Tree, p: Path, made: Tree) {
    && (forall q :: q in made <==> q in tree || Above(q, p))
    && forall q | q in made :: made[q] == if q in tree then tree[q] else Dir
  }

  /** Folders are made for the whole path, unless something else is in the way. */
  lemma {:induction false} FoldersMade(tree: Tree, p: Path)
    ensures match MakeDirs(tree, p)
            case Failed(failure) => failure == NotAFolder && Obstructed(tree, p)
            case Done(made) => !Obstructed(tree, p) && MadeFolders(tree, p, made)
    decreases |p|
  {
    if p != [] {
      FoldersMade(tree, Parent(p));
      forall q ensures Above(q, p) <==> q == p || Above(q, Parent(p)) {
        AboveParent(q, p);
      }
      if p in tree && tree[p] != Dir {
        assert Above(p, p);
      }
    }
  }

  lemma AboveParent(q: Path, p: Path)
    requires p != []
    ensures Above(q, p) <==> q == p || Above(q, Parent(p))
  {
    if Above(q, p) && q != p {
      assert q == p[..|q|] == Parent(p)[..|q|];
    }
    if Above(q, Parent(p)) {
      assert q == Parent(p)[..|q|] == p[..|q|];
    }
  }

  /** What a file gets as its content: the settings what their protected form hides, if it is one. */
  ghost predicate Gets(job: Job, name: Path, stored: Bytes, outcome: Outcome<Bytes>) {
    if !job.profile.palworld || !IsSettings(name) then outcome == Done(stored)
    else if |stored| > 16777216 then outcome == Failed(TooLarge)
    else if !job.protector.isBlob(stored) then outcome == Done(stored)
    else
      var plain := job.protector.unprotect(
        job.profile.id + ['\U{1F}'] + job.backupId + ['\U{1F}'] + "pal/saved/config/windowsserver/palworldsettings.ini",
        stored);
      outcome == if plain.None? then Failed(NotUnprotected) else Done(plain.value)
  }

  lemma RestoredMeans(job: Job, name: Path, stored: Bytes)
    requires Enclosed(name) && name != []
    ensures Gets(job, name, stored, Restored(job, name, stored))
  {
    hide Lowercase, Joined, IsSettings;
    SecretMeans(job, name);
  }

  /** Which entries are refused, and why, and what the others make of the tree. */
  lemma PlacedExactly(job: Job, tree: Tree, entry: Entry)
    requires [] in tree && tree[[]] == Dir
    ensures var folder := if entry.DirEntry? || entry.name == [] then entry.name else Parent(entry.name);
      var placed := Place(job, tree, entry);
      if Escapes(entry.name) then placed == Failed(Dangerous)
      else if entry.FileEntry? && entry.name == [] then placed == Failed(IsAFolder)
      else if Obstructed(tree, folder) then placed == Failed(NotAFolder)
      else if entry.DirEntry? then placed.Done? && MadeFolders(tree, folder, placed.value)
      else if entry.name in tree && tree[entry.name] == Dir then placed == Failed(IsAFolder)
      else
        match placed
        case Failed(failure) => Gets(job, entry.name, entry.stored, Failed(failure))
        case Done(made) =>
          && entry.name in made && made[entry.name].File?
          && Gets(job, entry.name, entry.stored, Done(made[entry.name].bytes))
          && (forall q :: q in made <==> q == entry.name || q in tree || Above(q, folder))
          && forall q | q in made && q != entry.name :: made[q] == if q in tree then tree[q] else Dir
  {
    hide Enclosed, Escapes, Gets, Obstructed, Restored, MakeDirs;
    EscapesExactly(entry.name);
    if !Escapes(entry.name) && entry.name != [] {
      FoldersMade(tree, if entry.DirEntry? then entry.name else Parent(entry.name));
      if entry.FileEntry? {
        RestoredMeans(job, entry.name, entry.stored);
        NotAboveParent(entry.name);
      }
    } else if entry.DirEntry? {
      FoldersMade(tree, entry.name);
    }
  }

  lemma NotAboveParent(p: Path)
    requires p != []
    ensures !Above(p, Parent(p))
  {
  }
}
