/**
 Writing a server folder to an archive and extracting it again. A folder is a
 map from paths to what is there; one file of a Palworld server is stored in
 protected form.
 */
module Backup {
  import opened Options
  import opened Text

  const MAX_PROTECTED_ENTRY: nat := 8388608
  const MAX_U64: nat := 0xFFFF_FFFF_FFFF_FFFF
  const HUB: string := ".server-hub"
  const SECRET: string := "pal/saved/config/windowsserver/palworldsettings.ini"
  const SEPARATOR: char := '\U{1F}'
  const EXCLUDED: seq<string> := ["pal/saved/logs", "pal/saved/crashes", "pal/saved/profiling"]
  const ROOTS: seq<string> := [
    "pal/saved", "mods", "pal/mods", "pal/binaries/win64/mods", "pal/content/paks",
     "steamapps/workshop/content/1623730"]
  const SERVER_PAKS: string := "pal/content/paks/pal-windowsserver."

  type Bytes = seq<bv8>
  type Path = seq<string>

  /** On the platform that is supported, what is neither a folder nor a link is a regular file. */
  datatype Node = Dir | File(bytes: Bytes) | Symlink

  type Tree = map<Path, Node>

  datatype Scope = Full | PalworldEssential

  datatype Profile = Profile(id: string, palworld: bool)

  datatype Failure = TooLarge | NotProtected | NotUnprotected | Dangerous | NotAFolder | IsAFolder

  datatype Outcome<+T> = Done(value: T) | Failed(failure: Failure)

  /** The operating system's protection of data for one scope. */
  datatype Protector = Protector(
    protect: (string, Bytes) -> Option<Bytes>,
    unprotect: (string, Bytes) -> Option<Bytes>,
    isBlob: Bytes -> bool)

  /** What was protected is recognised, comes back for the same scope and has grown by no more than so much. */
  ghost predicate Sound(p: Protector) {
    forall scope, bytes :: p.protect(scope, bytes).Some? ==>
      var blob := p.protect(scope, bytes).value;
      p.isBlob(blob) && p.unprotect(scope, blob) == Some(bytes) && |blob| <= |bytes| + MAX_PROTECTED_ENTRY
  }

  /** One backup: what is saved, for whom, how much of it and under which id. */
  datatype Job = Job(tree: Tree, profile: Profile, scope: Scope, backupId: string, protector: Protector)

  datatype Entry = DirEntry(name: Path) | FileEntry(name: Path, stored: Bytes)

  // ---------------------------------------------------------------- what is kept

  /** The path as it is written, with slashes. */
  function Joined(p: Path): string {
    if p == [] then ""
    else if |p| == 1 then p[0]
    else Joined(p[..|p| - 1]) + "/" + p[|p| - 1]
  }

  predicate Within(n: string, root: string) { n == root || StartsWith(n, root + "/") }

  predicate Essential(p: Path, isDir: bool) {
    var n := Lowercase(Joined(p));
    && (forall i | 0 <= i < |EXCLUDED| :: !Within(n, EXCLUDED[i]))
    && (exists i | 0 <= i < |ROOTS| :: Within(n, ROOTS[i]) || (isDir && StartsWith(ROOTS[i], n + "/")))
    && !StartsWith(n, SERVER_PAKS)
  }

  predicate Skip(p: Path, node: Node, scope: Scope) {
    p == [] || p[0] == HUB || node.Symlink? || (scope.PalworldEssential? && !Essential(p, node.Dir?))
  }

  predicate Kept(job: Job, p: Path) { p in job.tree && !Skip(p, job.tree[p], job.scope) }

  function Parent(p: Path): Path
    requires p != []
  {
    p[..|p| - 1]
  }

  /** A component that a file system gives out. */
  predicate Ordinary(name: string) {
    name != "" && name != "." && name != ".." && '/' !in name && '\\' !in name && '\0' !in name
  }

  predicate Rooted(tree: Tree) {
    && [] in tree && tree[[]] == Dir
    && forall p | p in tree && p != [] :: Parent(p) in tree && tree[Parent(p)] == Dir
  }

  predicate Named(tree: Tree) { forall p, i | p in tree && 0 <= i < |p| :: Ordinary(p[i]) }

  lemma StartsThrough(n: string, m: string, x: string)
    requires StartsWith(n, m + "/")
    ensures Within(m, x) ==> Within(n, x)
    ensures StartsWith(m, x) ==> StartsWith(n, x)
    ensures Within(n, x) ==> Within(m, x) || StartsWith(x, m + "/")
    ensures StartsWith(x, n + "/") ==> StartsWith(x, m + "/")
  {
    assert forall k | 0 <= k <= |m| :: n[k] == (m + "/")[k];
    if Within(m, x) && m != x {
      assert n[..|x| + 1] == m[..|x| + 1];
    }
    if StartsWith(m, x) {
      assert n[..|x|] == m[..|x|];
    }
    if Within(n, x) {
      if |m| < |x| {
        assert x[..|m| + 1] == n[..|m| + 1];
      } else if |m| == |x| {
        assert m == n[..|m|] && x == n[..|x|];
      } else {
        assert m[..|x| + 1] == n[..|x| + 1];
      }
    }
    if StartsWith(x, n + "/") {
      assert x[..|m| + 1] == (n + "/")[..|m| + 1] == n[..|m| + 1];
    }
  }

  /** A path is written as any of its ancestors, a slash and the rest. */
  lemma {:induction false} JoinedExtends(p: Path, k: nat)
    requires 0 < k < |p|
    ensures StartsWith(Joined(p), Joined(p[..k]) + "/")
  {
    var init := p[..|p| - 1];
    if k < |p| - 1 {
      JoinedExtends(init, k);
      assert init[..k] == p[..k];
      var m := Joined(p[..k]) + "/";
      assert Joined(p)[..|m|] == Joined(init)[..|m|];
    } else {
      assert p[..k] == init;
    }
  }

  lemma LowercaseExtends(s: string, t: string)
    requires StartsWith(s, t + "/")
    ensures StartsWith(Lowercase(s), Lowercase(t) + "/")
  {
    forall k | 0 <= k <= |t| ensures Lowercase(s)[k] == (Lowercase(t) + "/")[k] {
      assert s[k] == (t + "/")[k];
      LowerFirstAt(s, |s|, k);
      if k < |t| {
        LowerFirstAt(t, |t|, k);
      }
    }
    assert Lowercase(s)[..|t| + 1] == Lowercase(t) + "/";
  }

  /** Whatever is essential, so is every folder above it. */
  lemma EssentialAncestors(p: Path, isDir: bool, k: nat)
    requires 0 < k < |p| && Essential(p, isDir)
    ensures Essential(p[..k], true)
  {
    var n, m := Lowercase(Joined(p)), Lowercase(Joined(p[..k]));
    JoinedExtends(p, k);
    LowercaseExtends(Joined(p), Joined(p[..k]));
    forall i | 0 <= i < |EXCLUDED| ensures !Within(m, EXCLUDED[i]) {
      StartsThrough(n, m, EXCLUDED[i]);
    }
    var i :| 0 <= i < |ROOTS| && (Within(n, ROOTS[i]) || (isDir && StartsWith(ROOTS[i], n + "/")));
    StartsThrough(n, m, ROOTS[i]);
    StartsThrough(n, m, SERVER_PAKS);
  }

  /** In either scope the folder around something kept is kept too. */
  lemma ParentIsKept(job: Job, p: Path)
    requires Rooted(job.tree) && Kept(job, p) && |p| > 1
    ensures Kept(job, Parent(p)) && job.tree[Parent(p)] == Dir
  {
    if job.scope.PalworldEssential? {
      EssentialAncestors(p, job.tree[p].Dir?, |p| - 1);
    }
  }

  /** So are all the folders above it. */
  lemma {:induction false} AncestorsAreKept(job: Job, p: Path, k: nat)
    requires Rooted(job.tree) && Kept(job, p) && 0 < k < |p|
    ensures Kept(job, p[..k]) && job.tree[p[..k]] == Dir
    decreases |p|
  {
    ParentIsKept(job, p);
    if k < |p| - 1 {
      AncestorsAreKept(job, Parent(p), k);
      assert Parent(p)[..k] == p[..k];
    }
  }

  // ---------------------------------------------------------------- writing

  predicate IsSecret(job: Job, p: Path) { job.profile.palworld && Lowercase(Joined(p)) == SECRET }

  function SecretScope(job: Job, p: Path): string {
    job.profile.id + [SEPARATOR] + job.backupId + [SEPARATOR] + Lowercase(Joined(p))
  }

  function Content(node: Node): Bytes { if node.File? then node.bytes else [] }

  function EntryFor(job: Job, p: Path): Outcome<Entry>
    requires Kept(job, p)
  {
    var node := job.tree[p];
    if node.Dir? then Done(DirEntry(p))
    else if !IsSecret(job, p) then Done(FileEntry(p, Content(node)))
    else if |Content(node)| > MAX_PROTECTED_ENTRY then Failed(TooLarge)
    else
      match job.protector.protect(SecretScope(job, p), Content(node))
      case None => Failed(NotProtected)
      case Some(blob) => Done(FileEntry(p, blob))
  }

  predicate InTree(job: Job, walk: seq<Path>) { forall i | 0 <= i < |walk| :: walk[i] in job.tree }

  /** The entries for the first n paths of the walk. */
  function ArchiveFirst(job: Job, walk: seq<Path>, n: nat): Outcome<seq<Entry>>
    requires n <= |walk| && InTree(job, walk)
  {
    if n == 0 then Done([])
    else
      match ArchiveFirst(job, walk, n - 1)
      case Failed(failure) => Failed(failure)
      case Done(entries) =>
        if !Kept(job, walk[n - 1]) then Done(entries)
        else
          match EntryFor(job, walk[n - 1])
          case Failed(failure) => Failed(failure)
          case Done(entry) => Done(entries + [entry])
  }

  function Saturated(n: nat): nat { if n <= MAX_U64 then n else MAX_U64 }

  function SaturatingAdd(a: nat, b: nat): nat { Saturated(a + b) }

  /** Is this one of the files that a backup holds? */
  predicate IsKeptFile(job: Job, p: Path) { Kept(job, p) && job.tree[p].File? }

  function FilesFirst(job: Job, walk: seq<Path>, n: nat): nat
    requires n <= |walk|
  {
    if n == 0 then 0 else FilesFirst(job, walk, n - 1) + if IsKeptFile(job, walk[n - 1]) then 1 else 0
  }

  function BytesFirst(job: Job, walk: seq<Path>, n: nat): nat
    requires n <= |walk|
  {
    if n == 0 then 0
    else
      BytesFirst(job, walk, n - 1) + if IsKeptFile(job, walk[n - 1]) then |Content(job.tree[walk[n - 1]])| else 0
  }

  /** The scan before the backup: how many regular files it is about to save, and how large they are. */
  method ScanSource(job: Job, walk: seq<Path>) returns (size: nat, files: nat)
    requires InTree(job, walk)
    ensures var all := BytesFirst(job, walk, |walk|); size == if all < 0x1_0000_0000_0000_0000 then all else MAX_U64
    ensures var all := FilesFirst(job, walk, |walk|); files == if all < 0x1_0000_0000_0000_0000 then all else MAX_U64
  {
    size, files := 0, 0;
    for n := 0 to |walk|
      invariant size == Saturated(BytesFirst(job, walk, n))
      invariant files == Saturated(FilesFirst(job, walk, n))
    {
      var node := job.tree[walk[n]];
      if Skip(walk[n], node, job.scope) {
        continue;
      }
      if node.File? {
        size := SaturatingAdd(size, |node.bytes|);
        files := SaturatingAdd(files, 1);
      }
    }
  }

  /** Writes one entry; a file that is to be protected must not be too large. */
  method WriteEntry(job: Job, p: Path) returns (entry: Outcome<Entry>)
    requires Kept(job, p)
    ensures entry == EntryFor(job, p)
  {
    var node := job.tree[p];
    if node.Dir? {
      return Done(DirEntry(p));
    }
    var secret := IsSecret(job, p);
    if secret && |Content(node)| > MAX_PROTECTED_ENTRY {
      return Failed(TooLarge);
    }
    if secret {
      var blob := job.protector.protect(SecretScope(job, p), Content(node));
      if blob.None? {
        return Failed(NotProtected);
      }
      return Done(FileEntry(p, blob.value));
    }
    return Done(FileEntry(p, Content(node)));
  }

  /** Writes the archive and counts what it has written. */
  method WriteZip(job: Job, walk: seq<Path>) returns (archive: Outcome<seq<Entry>>, size: nat, files: nat)
    requires InTree(job, walk)
    ensures archive == ArchiveFirst(job, walk, |walk|)
    ensures archive.Done? ==>
      var all := BytesFirst(job, walk, |walk|); size == if all < 0x1_0000_0000_0000_0000 then all else MAX_U64
    ensures archive.Done? ==>
      var all := FilesFirst(job, walk, |walk|); files == if all < 0x1_0000_0000_0000_0000 then all else MAX_U64
  {
    var entries := [];
    size, files := 0, 0;
    for n := 0 to |walk|
      invariant ArchiveFirst(job, walk, n) == Done(entries)
      invariant size == Saturated(BytesFirst(job, walk, n))
      invariant files == Saturated(FilesFirst(job, walk, n))
    {
      var node := job.tree[walk[n]];
      if Skip(walk[n], node, job.scope) {
        continue;
      }
      var entry := WriteEntry(job, walk[n]);
      if entry.Failed? {
        FailureStays(job, walk, n + 1, |walk|);
        return Failed(entry.failure), size, files;
      }
      entries := entries + [entry.value];
      if !node.Dir? {
        size := SaturatingAdd(size, |Content(node)|);
        files := SaturatingAdd(files, 1);
      }
    }
    archive := Done(entries);
  }

  lemma {:induction false} FailureStays(job: Job, walk: seq<Path>, n: nat, m: nat)
    requires n <= m <= |walk| && InTree(job, walk) && ArchiveFirst(job, walk, n).Failed?
    ensures ArchiveFirst(job, walk, m) == ArchiveFirst(job, walk, n)
  {
    if n < m {
      FailureStays(job, walk, n, m - 1);
    }
  }

  // ---------------------------------------------------------------- extracting

  predicate Enclosed(name: Path) { forall i | 0 <= i < |name| :: Ordinary(name[i]) }

  /** Makes the folder and those above it. */
  function MakeDirs(tree: Tree, p: Path): Outcome<Tree>
    decreases |p|
  {
    if p == [] then Done(tree)
    else
      match MakeDirs(tree, Parent(p))
      case Failed(failure) => Failed(failure)
      case Done(above) =>
        if p !in above then Done(above[p := Dir])
        else if above[p] == Dir then Done(above)
        else Failed(NotAFolder)
  }

  /** What an entry's file gets as its content. */
  function Restored(job: Job, name: Path, stored: Bytes): Outcome<Bytes> {
    if !IsSecret(job, name) then Done(stored)
    else if |stored| > 2 * MAX_PROTECTED_ENTRY then Failed(TooLarge)
    else if !job.protector.isBlob(stored) then Done(stored)
    else
      match job.protector.unprotect(SecretScope(job, name), stored)
      case None => Failed(NotUnprotected)
      case Some(bytes) => Done(bytes)
  }

  function Place(job: Job, tree: Tree, entry: Entry): Outcome<Tree> {
    if !Enclosed(entry.name) then Failed(Dangerous)
    else if entry.DirEntry? then MakeDirs(tree, entry.name)
    else if entry.name == [] then Failed(IsAFolder)
    else
      match MakeDirs(tree, Parent(entry.name))
      case Failed(failure) => Failed(failure)
      case Done(above) =>
        if entry.name in above && above[entry.name] == Dir then Failed(IsAFolder)
        else
          match Restored(job, entry.name, entry.stored)
          case Failed(failure) => Failed(failure)
          case Done(bytes) => Done(above[entry.name := File(bytes)])
  }

  const EMPTY_FOLDER: Tree := map[[] := Dir]

  function ExtractFirst(job: Job, entries: seq<Entry>, n: nat): Outcome<Tree>
    requires n <= |entries|
  {
    if n == 0 then Done(EMPTY_FOLDER)
    else
      match ExtractFirst(job, entries, n - 1)
      case Failed(failure) => Failed(failure)
      case Done(tree) => Place(job, tree, entries[n - 1])
  }

  function Extract(job: Job, entries: seq<Entry>): Outcome<Tree> { ExtractFirst(job, entries, |entries|) }

  method ExtractArchive(job: Job, entries: seq<Entry>) returns (r: Outcome<Tree>)
    ensures r == Extract(job, entries)
  {
    var tree := EMPTY_FOLDER;
    for n := 0 to |entries|
      invariant ExtractFirst(job, entries, n) == Done(tree)
    {
      var next := Place(job, tree, entries[n]);
      if next.Failed? {
        ExtractFailureStays(job, entries, n + 1, |entries|);
        return next;
      }
      tree := next.value;
    }
    r := Done(tree);
  }

  lemma {:induction false} ExtractFailureStays(job: Job, entries: seq<Entry>, n: nat, m: nat)
    requires n <= m <= |entries| && ExtractFirst(job, entries, n).Failed?
    ensures ExtractFirst(job, entries, m) == ExtractFirst(job, entries, n)
  {
    if n < m {
      ExtractFailureStays(job, entries, n, m - 1);
    }
  }

  // ---------------------------------------------------------------- the round trip

  /** The walk goes through the whole folder, every folder before what is in it. */
  ghost predicate Walks(job: Job, walk: seq<Path>) {
    && (forall p :: p in job.tree <==> p in walk)
    && forall n | 0 <= n < |walk| && walk[n] != [] :: Parent(walk[n]) in walk[..n]
  }

  /** What something looks like after it was saved and extracted. */
  function After(node: Node): Node { if node.Dir? then Dir else File(Content(node)) }

  /** What is to be found after the first n paths of the walk. */
  function KeptFirst(job: Job, walk: seq<Path>, n: nat): Tree
    requires n <= |walk|
  {
    if n == 0 then EMPTY_FOLDER
    else if Kept(job, walk[n - 1]) then KeptFirst(job, walk, n - 1)[walk[n - 1] := After(job.tree[walk[n - 1]])]
    else KeptFirst(job, walk, n - 1)
  }

  /** Everything kept, and the folder itself. */
  function KeptTree(job: Job): Tree {
    map p | p in job.tree && (p == [] || Kept(job, p)) :: After(job.tree[p])
  }

  lemma {:induction false} KeptFirstIs(job: Job, walk: seq<Path>, n: nat, p: Path)
    requires n <= |walk|
    ensures p in KeptFirst(job, walk, n) <==> p == [] || (p in walk[..n] && Kept(job, p))
    ensures p in KeptFirst(job, walk, n) ==> KeptFirst(job, walk, n)[p] == if p == [] then Dir else After(job.tree[p])
  {
    if n > 0 {
      KeptFirstIs(job, walk, n - 1, p);
      assert walk[..n] == walk[..n - 1] + [walk[n - 1]];
    }
  }

  /** Making folders that are there already changes nothing. */
  lemma {:induction false} DirsAreThere(tree: Tree, p: Path)
    requires Rooted(tree) && p in tree && tree[p] == Dir
    ensures MakeDirs(tree, p) == Done(tree)
    decreases |p|
  {
    if p != [] {
      DirsAreThere(tree, Parent(p));
    }
  }

  lemma KeptFirstIsRooted(job: Job, walk: seq<Path>, n: nat)
    requires n <= |walk| && Rooted(job.tree) && Walks(job, walk)
    ensures Rooted(KeptFirst(job, walk, n))
  {
    var tree := KeptFirst(job, walk, n);
    KeptFirstIs(job, walk, n, []);
    forall p | p in tree && p != [] ensures Parent(p) in tree && tree[Parent(p)] == Dir {
      KeptFirstIs(job, walk, n, p);
      var i :| 0 <= i < n && walk[..n][i] == p;
      ParentComesBefore(job, walk, i, n);
    }
  }

  lemma ParentComesBefore(job: Job, walk: seq<Path>, i: nat, n: nat)
    requires i < |walk| && i <= n <= |walk| && Rooted(job.tree) && Walks(job, walk) && Kept(job, walk[i])
    ensures Parent(walk[i]) in KeptFirst(job, walk, n) && KeptFirst(job, walk, n)[Parent(walk[i])] == Dir
  {
    var parent := Parent(walk[i]);
    assert parent in walk[..i];
    assert walk[..i] == walk[..n][..i];
    assert parent in walk[..n];
    if |walk[i]| > 1 {
      ParentIsKept(job, walk[i]);
    }
    KeptFirstIs(job, walk, n, parent);
  }

  /** What was stored for a file comes back as it was. */
  lemma ContentComesBack(job: Job, p: Path)
    requires Sound(job.protector) && Kept(job, p) && !job.tree[p].Dir? && EntryFor(job, p).Done?
    ensures var entry := EntryFor(job, p).value;
      entry.FileEntry? && entry.name == p && Restored(job, p, entry.stored) == Done(Content(job.tree[p]))
  {
  }

  /** Extracting the entry of one more path puts back what was there. */
  predicate PutsBack(job: Job, walk: seq<Path>, n: nat)
    requires n < |walk|
  {
    Kept(job, walk[n]) && EntryFor(job, walk[n]).Done? ==>
      Place(job, KeptFirst(job, walk, n), EntryFor(job, walk[n]).value) == Done(KeptFirst(job, walk, n + 1))
  }

  /** A folder is made where its parent is, and made again it changes nothing. */
  lemma DirPutBack(job: Job, tree: Tree, p: Path)
    requires Rooted(tree) && p != [] && Enclosed(p) && Parent(p) in tree && tree[Parent(p)] == Dir
    requires p in tree ==> tree[p] == Dir
    ensures Place(job, tree, DirEntry(p)) == Done(tree[p := Dir])
  {
    DirsAreThere(tree, Parent(p));
    assert p in tree ==> tree == tree[p := Dir];
  }

  lemma FilePutBack(job: Job, tree: Tree, p: Path)
    requires Sound(job.protector) && Kept(job, p) && p != [] && Enclosed(p)
    requires !job.tree[p].Dir? && EntryFor(job, p).Done?
    requires Rooted(tree) && Parent(p) in tree && tree[Parent(p)] == Dir && !(p in tree && tree[p] == Dir)
    ensures Place(job, tree, EntryFor(job, p).value) == Done(tree[p := File(Content(job.tree[p]))])
  {
    hide EntryFor, Restored, Kept, Rooted, Enclosed;
    DirsAreThere(tree, Parent(p));
    ContentComesBack(job, p);
  }

  lemma PlacePutsBack(job: Job, walk: seq<Path>, n: nat)
    requires n < |walk| && Rooted(job.tree) && Named(job.tree) && Walks(job, walk) && Sound(job.protector)
    requires Kept(job, walk[n]) && EntryFor(job, walk[n]).Done?
    ensures PutsBack(job, walk, n)
  {
    hide Rooted, Walks, Place, IsSecret, SecretScope, Sound;
    var p, tree := walk[n], KeptFirst(job, walk, n);
    KeptFirstIsRooted(job, walk, n);
    ParentComesBefore(job, walk, n, n);
    KeptFirstIs(job, walk, n, p);
    if job.tree[p].Dir? {
      DirPutBack(job, tree, p);
    } else {
      FilePutBack(job, tree, p);
    }
  }

  lemma {:induction false} ExtractPrefix(job: Job, entries: seq<Entry>, more: seq<Entry>, n: nat)
    requires n <= |entries|
    ensures ExtractFirst(job, entries + more, n) == ExtractFirst(job, entries, n)
  {
    if n > 0 {
      ExtractPrefix(job, entries, more, n - 1);
    }
  }

  lemma ExtractNext(job: Job, entries: seq<Entry>, entry: Entry)
    requires Extract(job, entries).Done?
    ensures Extract(job, entries + [entry]) == Place(job, Extract(job, entries).value, entry)
  {
    ExtractPrefix(job, entries, [entry], |entries|);
  }

  lemma {:induction false} RoundTripFirst(job: Job, walk: seq<Path>, n: nat)
    requires n <= |walk| && InTree(job, walk) && forall i | 0 <= i < |walk| :: PutsBack(job, walk, i)
    requires ArchiveFirst(job, walk, n).Done?
    ensures Extract(job, ArchiveFirst(job, walk, n).value) == Done(KeptFirst(job, walk, n))
  {
    if n > 0 {
      RoundTripFirst(job, walk, n - 1);
      if Kept(job, walk[n - 1]) {
        assert PutsBack(job, walk, n - 1);
        ExtractNext(job, ArchiveFirst(job, walk, n - 1).value, EntryFor(job, walk[n - 1]).value);
      }
    }
  }

  lemma KeptFirstIsKeptTree(job: Job, walk: seq<Path>)
    requires Rooted(job.tree) && Walks(job, walk)
    ensures KeptFirst(job, walk, |walk|) == KeptTree(job)
  {
    assert walk[..|walk|] == walk;
    forall p
      ensures p in KeptFirst(job, walk, |walk|) <==> p in KeptTree(job)
      ensures p in KeptTree(job) ==> KeptFirst(job, walk, |walk|)[p] == KeptTree(job)[p]
    {
      KeptFirstIs(job, walk, |walk|, p);
    }
  }

  /** Extracting a written archive under the same profile and id gives exactly the kept tree. */
  lemma RoundTrip(job: Job, walk: seq<Path>)
    requires Rooted(job.tree) && Named(job.tree) && Walks(job, walk) && Sound(job.protector)
    requires ArchiveFirst(job, walk, |walk|).Done?
    ensures Extract(job, ArchiveFirst(job, walk, |walk|).value) == Done(KeptTree(job))
  {
    forall i | 0 <= i < |walk| ensures PutsBack(job, walk, i) {
      if Kept(job, walk[i]) && EntryFor(job, walk[i]).Done? {
        PlacePutsBack(job, walk, i);
      }
    }
    RoundTripFirst(job, walk, |walk|);
    KeptFirstIsKeptTree(job, walk);
  }

  // ---------------------------------------------------------------- what the scan announces

  /** How many files an archive holds. */
  function FilesIn(entries: seq<Entry>): nat {
    if entries == [] then 0
    else FilesIn(entries[..|entries| - 1]) + if entries[|entries| - 1].FileEntry? then 1 else 0
  }

  /** How much an archive's files have in them once they are extracted; nothing where one cannot be. */
  function BytesIn(job: Job, entries: seq<Entry>): nat {
    if entries == [] then 0
    else
      var last := entries[|entries| - 1];
      BytesIn(job, entries[..|entries| - 1])
      + if last.FileEntry? && Restored(job, last.name, last.stored).Done?
        then |Restored(job, last.name, last.stored).value| else 0
  }

  lemma FilesInNext(job: Job, entries: seq<Entry>, entry: Entry)
    ensures FilesIn(entries + [entry]) == FilesIn(entries) + if entry.FileEntry? then 1 else 0
    ensures BytesIn(job, entries + [entry])
      == BytesIn(job, entries)
         + if entry.FileEntry? && Restored(job, entry.name, entry.stored).Done?
           then |Restored(job, entry.name, entry.stored).value| else 0
  {
    assert (entries + [entry])[..|entries|] == entries;
  }

  lemma {:induction false} ScanAnnouncesFirst(job: Job, walk: seq<Path>, n: nat)
    requires n <= |walk| && InTree(job, walk) && Sound(job.protector) && ArchiveFirst(job, walk, n).Done?
    ensures FilesIn(ArchiveFirst(job, walk, n).value) == FilesFirst(job, walk, n)
    ensures BytesIn(job, ArchiveFirst(job, walk, n).value) == BytesFirst(job, walk, n)
  {
    hide Skip, SecretScope, IsSecret;
    if n > 0 {
      ScanAnnouncesFirst(job, walk, n - 1);
      if Kept(job, walk[n - 1]) {
        FilesInNext(job, ArchiveFirst(job, walk, n - 1).value, EntryFor(job, walk[n - 1]).value);
        EntryIsOfItsKind(job, walk[n - 1]);
        if !job.tree[walk[n - 1]].Dir? {
          ContentComesBack(job, walk[n - 1]);
        }
      }
    }
  }

  lemma EntryIsOfItsKind(job: Job, p: Path)
    requires Kept(job, p) && EntryFor(job, p).Done?
    ensures EntryFor(job, p).value.FileEntry? <==> job.tree[p].File?
  {
  }

  /** What the scan announces is what the archive holds: as many files, with as many bytes once extracted. */
  lemma ScanAnnouncesWriting(job: Job, walk: seq<Path>)
    requires InTree(job, walk) && Sound(job.protector) && ArchiveFirst(job, walk, |walk|).Done?
    ensures var entries := ArchiveFirst(job, walk, |walk|).value;
      && Saturated(FilesFirst(job, walk, |walk|)) == Saturated(FilesIn(entries))
      && Saturated(BytesFirst(job, walk, |walk|)) == Saturated(BytesIn(job, entries))
  {
    ScanAnnouncesFirst(job, walk, |walk|);
  }

  /** Writing fails exactly where the one protected file is too large or cannot be protected. */
  lemma {:induction false} WritingFailsExactly(job: Job, walk: seq<Path>, n: nat)
    requires n <= |walk| && InTree(job, walk)
    ensures ArchiveFirst(job, walk, n).Failed? <==> exists i | 0 <= i < n :: Unwritable(job, walk[i])
  {
    if n > 0 {
      WritingFailsExactly(job, walk, n - 1);
      if Unwritable(job, walk[n - 1]) {
        assert ArchiveFirst(job, walk, n).Failed?;
      }
    }
  }

  predicate Unwritable(job: Job, p: Path) {
    Kept(job, p) && !job.tree[p].Dir? && IsSecret(job, p)
    && (|Content(job.tree[p])| > MAX_PROTECTED_ENTRY
        || job.protector.protect(SecretScope(job, p), Content(job.tree[p])).None?)
  }
}
