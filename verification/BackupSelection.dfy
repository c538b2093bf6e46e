/**
 Which files of a server folder a backup takes and which of them it protects,
 said of the components of their paths and not of how the paths are written.
 */
module BackupSelection {
  import opened Options
  import opened Text
  import opened Backup

  // ---------------------------------------------------------------- components

  /** A component without a slash that is not empty. */
  predicate Component(s: string) { s != "" && '/' !in s }

  predicate Components(p: Path) { forall i | 0 <= i < |p| :: Component(p[i]) }

  function LowerAll(p: Path): (r: Path)
    ensures |r| == |p| && forall i | 0 <= i < |p| :: r[i] == Lowercase(p[i])
  {
    seq(|p|, i requires 0 <= i < |p| => Lowercase(p[i]))
  }

  lemma LowercaseComponent(s: string)
    requires Component(s)
    ensures Component(Lowercase(s))
  {
    forall i | 0 <= i < |s| ensures Lowercase(s)[i] != '/' {
      LowerFirstAt(s, |s|, i);
      LowerIsSame(s[i], s[i]);
    }
  }

  lemma {:induction false} LowercaseJoined(p: Path)
    ensures Lowercase(Joined(p)) == Joined(LowerAll(p))
  {
    hide Lowercase;
    if |p| > 1 {
      var init, last := p[..|p| - 1], p[|p| - 1];
      LowercaseJoined(init);
      LowercaseAppend(Joined(init) + "/", last);
      LowercaseAppend(Joined(init), "/");
      LowerIs("/", "/");
      assert LowerAll(p)[..|p| - 1] == LowerAll(init);
    } else if p == [] {
      LowerIs("", "");
    }
  }

  // ---------------------------------------------------------------- how a path is written

  lemma {:induction false} JoinedFront(p: Path)
    requires |p| > 1
    ensures Joined(p) == p[0] + "/" + Joined(p[1..])
  {
    var init, last := p[..|p| - 1], p[|p| - 1];
    if |p| == 2 {
      assert init == [p[0]] && p[1..] == [last];
    } else {
      JoinedFront(init);
      assert p[1..][..|p| - 2] == init[1..];
      assert Joined(p[1..]) == Joined(init[1..]) + "/" + last;
      assert p[0] + "/" + Joined(init[1..]) + "/" + last == p[0] + "/" + (Joined(init[1..]) + "/" + last);
    }
  }

  /** The first component ends at the first slash. */
  lemma HeadSplits(a: string, x: string, b: string, y: string)
    requires '/' !in a && '/' !in b
    ensures StartsWith(a + "/" + x, b + "/" + y) <==> a == b && StartsWith(x, y)
  {
    var s, t := a + "/" + x, b + "/" + y;
    assert s[|a|] == '/' && t[|b|] == '/';
    assert forall i | 0 <= i < |a| :: s[i] == a[i];
    assert forall i | 0 <= i < |b| :: t[i] == b[i];
    if StartsWith(s, t) {
      assert forall i | 0 <= i < |t| :: s[..|t|][i] == t[i] == s[i];
      assert |a| == |b|;
      assert a == s[..|a|] && b == t[..|b|];
      assert x[..|y|] == s[|a| + 1..][..|y|] == t[|b| + 1..] == y;
    }
    if a == b && StartsWith(x, y) {
      assert s[..|t|] == a + "/" + x[..|y|];
    }
  }

  lemma HeadStands(a: string, b: string, y: string)
    requires '/' !in a
    ensures !StartsWith(a, b + "/" + y)
  {
    var t := b + "/" + y;
    assert t[|b|] == '/';
    if |t| <= |a| {
      assert a[..|t|][|b|] == a[|b|];
    }
  }

  lemma {:induction false} JoinedAnew(p: Path, r: Path)
    requires Components(p) && Components(r) && p != [] && r != []
    ensures StartsWith(Joined(p), Joined(r) + "/") <==> |r| < |p| && p[..|r|] == r
  {
    if |p| == 1 {
      if |r| > 1 {
        JoinedFront(r);
        assert Joined(r) + "/" == r[0] + "/" + (Joined(r[1..]) + "/");
        HeadStands(p[0], r[0], Joined(r[1..]) + "/");
      } else {
        assert r[0] + "/" == r[0] + "/" + "";
        HeadStands(p[0], r[0], "");
      }
    } else {
      JoinedFront(p);
      if |r| == 1 {
        assert r[0] + "/" == r[0] + "/" + "";
        HeadSplits(p[0], Joined(p[1..]), r[0], "");
        assert p[..1] == [p[0]] && r == [r[0]];
      } else {
        JoinedFront(r);
        assert Joined(r) + "/" == r[0] + "/" + (Joined(r[1..]) + "/");
        HeadSplits(p[0], Joined(p[1..]), r[0], Joined(r[1..]) + "/");
        JoinedAnew(p[1..], r[1..]);
        FrontsAgree(p, r);
      }
    }
  }

  lemma FrontsAgree(p: Path, r: Path)
    requires |p| > 1 && |r| > 1
    ensures |r| < |p| && p[..|r|] == r <==> p[0] == r[0] && |r[1..]| < |p[1..]| && p[1..][..|r| - 1] == r[1..]
  {
    if p[0] == r[0] && |r| < |p| && p[1..][..|r| - 1] == r[1..] {
      assert p[..|r|] == [p[0]] + p[1..][..|r| - 1] && r == [r[0]] + r[1..];
    }
    if |r| < |p| && p[..|r|] == r {
      assert p[1..][..|r| - 1] == p[..|r|][1..];
    }
  }

  lemma {:induction false} JoinedSame(p: Path, r: Path)
    requires Components(p) && Components(r) && p != [] && r != []
    ensures Joined(p) == Joined(r) <==> p == r
  {
    if Joined(p) == Joined(r) {
      var q := r + ["x"];
      assert q[..|r|] == r && Joined(q) == Joined(r) + "/" + "x";
      assert Joined(q)[..|Joined(p) + "/"|] == Joined(p) + "/";
      JoinedAnew(q, p);
      var o := p + ["x"];
      assert o[..|p|] == p && Joined(o) == Joined(p) + "/" + "x";
      assert Joined(o)[..|Joined(r) + "/"|] == Joined(r) + "/";
      JoinedAnew(o, r);
      assert |p| == |r| && p == q[..|p|] == r;
    }
  }

  /** The path is this folder or lies in it, whatever the case of the letters. */
  predicate Below(p: Path, folder: Path) {
    |folder| <= |p| && forall i | 0 <= i < |folder| :: SameName(p[i], folder[i])
  }

  lemma LoweredPrefix(p: Path, folder: Path)
    requires |folder| <= |p|
    ensures LowerAll(p)[..|folder|] == LowerAll(folder) <==> Below(p, folder)
  {
    forall i | 0 <= i < |folder| ensures LowerAll(p)[i] == LowerAll(folder)[i] <==> SameName(p[i], folder[i]) {
      LowercaseIsSame(p[i], folder[i]);
    }
    if LowerAll(p)[..|folder|] == LowerAll(folder) {
      assert forall i | 0 <= i < |folder| :: LowerAll(p)[..|folder|][i] == LowerAll(folder)[i];
    }
  }

  lemma LowerAllComponents(p: Path)
    requires Components(p)
    ensures Components(LowerAll(p))
  {
    forall i | 0 <= i < |p| ensures Component(LowerAll(p)[i]) {
      LowercaseComponent(p[i]);
    }
  }

  /** What the comparison of written paths says about their components. */
  lemma WithinIsBelow(p: Path, folder: Path)
    requires Components(p) && Components(folder) && p != [] && folder != []
    ensures Within(Lowercase(Joined(p)), Lowercase(Joined(folder))) <==> Below(p, folder)
    ensures StartsWith(Lowercase(Joined(folder)), Lowercase(Joined(p)) + "/") <==> |p| < |folder| && Below(folder, p)
  {
    hide Lowercase, StartsWith, Joined;
    LowercaseJoined(p);
    LowercaseJoined(folder);
    LowerAllComponents(p);
    LowerAllComponents(folder);
    JoinedAnew(LowerAll(p), LowerAll(folder));
    JoinedAnew(LowerAll(folder), LowerAll(p));
    JoinedSame(LowerAll(p), LowerAll(folder));
    if |folder| <= |p| {
      LoweredPrefix(p, folder);
      assert |folder| == |p| ==> LowerAll(p)[..|folder|] == LowerAll(p);
    }
    if |p| <= |folder| {
      LoweredPrefix(folder, p);
    }
  }

  // ---------------------------------------------------------------- what is essential

  const LEFT_OUT: seq<Path> := [["Pal", "Saved", "Logs"], ["Pal", "Saved", "Crashes"], ["Pal", "Saved", "Profiling"]]

  const TAKEN: seq<Path> := [
    ["Pal", "Saved"], ["Mods"], ["Pal", "Mods"], ["Pal", "Binaries", "Win64", "Mods"], ["Pal", "Content", "Paks"],
    ["steamapps", "workshop", "content", "1623730"]]

  /** One of the game's own archives among the others. */
  predicate GamePak(p: Path) {
    Below(p, ["Pal", "Content", "Paks"]) && |p| > 3 && |p[3]| >= 18 && SameName(p[3][..18], "Pal-WindowsServer.")
  }

  /** Saves, settings and mods of a Palworld server, with the folders that lead to them. */
  predicate WorthSaving(p: Path, isDir: bool) {
    && (forall i | 0 <= i < |LEFT_OUT| :: !Below(p, LEFT_OUT[i]))
    && (exists i | 0 <= i < |TAKEN| :: Below(p, TAKEN[i]) || (isDir && Below(TAKEN[i], p)))
    && !GamePak(p)
  }

  lemma Two(a: string, b: string)
    ensures Joined([a, b]) == a + "/" + b
  {
    assert [a, b][..1] == [a];
  }

  lemma Three(a: string, b: string, c: string)
    ensures Joined([a, b, c]) == a + "/" + b + "/" + c
  {
    Two(a, b);
    assert [a, b, c][..2] == [a, b];
  }

  lemma Four(a: string, b: string, c: string, d: string)
    ensures Joined([a, b, c, d]) == a + "/" + b + "/" + c + "/" + d
  {
    Three(a, b, c);
    assert [a, b, c, d][..3] == [a, b, c];
  }

  lemma FoldersAreNamed()
    ensures forall i | 0 <= i < |LEFT_OUT| :: Components(LEFT_OUT[i])
    ensures forall i | 0 <= i < |TAKEN| :: Components(TAKEN[i])
  {
  }

  lemma LogsAre()
    ensures Lowercase(Joined(LEFT_OUT[0])) == EXCLUDED[0]
  {
    LowerThree("Pal", "Saved", "Logs", "pal", "saved", "logs");
    hide Lowercase, Joined;
    assert "pal" + "/" == "pal/";
    assert "pal/" + "saved" == "pal/saved";
    assert "pal/saved" + "/" == "pal/saved/";
    assert "pal/saved/" + "logs" == "pal/saved/logs";
  }

  lemma CrashesAre()
    ensures Lowercase(Joined(LEFT_OUT[1])) == EXCLUDED[1]
  {
    LowerThree("Pal", "Saved", "Crashes", "pal", "saved", "crashes");
    hide Lowercase, Joined;
    assert "pal" + "/" == "pal/";
    assert "pal/" + "saved" == "pal/saved";
    assert "pal/saved" + "/" == "pal/saved/";
    assert "pal/saved/" + "crashes" == "pal/saved/crashes";
  }

  lemma ProfilesAre()
    ensures Lowercase(Joined(LEFT_OUT[2])) == EXCLUDED[2]
  {
    LowerThree("Pal", "Saved", "Profiling", "pal", "saved", "profiling");
    hide Lowercase, Joined;
    assert "pal" + "/" == "pal/";
    assert "pal/" + "saved" == "pal/saved";
    assert "pal/saved" + "/" == "pal/saved/";
    assert "pal/saved/" + "profiling" == "pal/saved/profiling";
  }

  lemma LeftOutAre(i: nat)
    requires i < 3
    ensures |EXCLUDED| == 3 && EXCLUDED[i] == Lowercase(Joined(LEFT_OUT[i]))
  {
    hide Lowercase, Joined;
    LogsAre();
    CrashesAre();
    ProfilesAre();
  }

  predicate Lowers(s: string, t: string) { |s| == |t| && forall i | 0 <= i < |s| :: Lower(s[i]) == t[i] }

  lemma LowerTwo(a: string, b: string, x: string, y: string)
    requires Lowers(a, x) && Lowers(b, y)
    ensures Lowercase(Joined([a, b])) == x + "/" + y
  {
    Two(a, b);
    LowerIs(a, x);
    LowerIs("/", "/");
    LowerIs(b, y);
    LowercaseAppend(a, "/");
    LowercaseAppend(a + "/", b);
  }

  lemma LowerThree(a: string, b: string, c: string, x: string, y: string, z: string)
    requires Lowers(a, x) && Lowers(b, y) && Lowers(c, z)
    ensures Lowercase(Joined([a, b, c])) == x + "/" + y + "/" + z
  {
    LowerTwo(a, b, x, y);
    Three(a, b, c);
    Two(a, b);
    LowerIs("/", "/");
    LowerIs(c, z);
    LowercaseAppend(a + "/" + b, "/");
    LowercaseAppend(a + "/" + b + "/", c);
  }

  lemma LowerFour(a: string, b: string, c: string, d: string, x: string, y: string, z: string, w: string)
    requires Lowers(a, x) && Lowers(b, y) && Lowers(c, z) && Lowers(d, w)
    ensures Lowercase(Joined([a, b, c, d])) == x + "/" + y + "/" + z + "/" + w
  {
    LowerThree(a, b, c, x, y, z);
    Four(a, b, c, d);
    Three(a, b, c);
    LowerIs("/", "/");
    LowerIs(d, w);
    LowercaseAppend(a + "/" + b + "/" + c, "/");
    LowercaseAppend(a + "/" + b + "/" + c + "/", d);
  }

  lemma TakenFirst()
    ensures ROOTS[0] == Lowercase(Joined(TAKEN[0])) && ROOTS[1] == Lowercase(Joined(TAKEN[1]))
    ensures ROOTS[2] == Lowercase(Joined(TAKEN[2]))
  {
    LowerTwo("Pal", "Saved", "pal", "saved");
    assert "pal" + "/" == "pal/";
    assert "pal/" + "saved" == "pal/saved";
    LowerIs("Mods", "mods");
    LowerTwo("Pal", "Mods", "pal", "mods");
    assert "pal" + "/" == "pal/";
    assert "pal/" + "mods" == "pal/mods";
  }

  lemma TakenMods()
    ensures ROOTS[3] == Lowercase(Joined(TAKEN[3]))
  {
    LowerFour("Pal", "Binaries", "Win64", "Mods", "pal", "binaries", "win64", "mods");
    hide Lowercase, Joined;
    assert "pal" + "/" == "pal/";
    assert "pal/" + "binaries" == "pal/binaries";
    assert "pal/binaries" + "/" == "pal/binaries/";
    assert "pal/binaries/" + "win64" == "pal/binaries/win64";
    assert "pal/binaries/win64" + "/" == "pal/binaries/win64/";
    assert "pal/binaries/win64/" + "mods" == "pal/binaries/win64/mods";
  }

  lemma TakenPaks()
    ensures ROOTS[4] == Lowercase(Joined(TAKEN[4]))
  {
    LowerThree("Pal", "Content", "Paks", "pal", "content", "paks");
    hide Lowercase, Joined;
    assert "pal" + "/" == "pal/";
    assert "pal/" + "content" == "pal/content";
    assert "pal/content" + "/" == "pal/content/";
    assert "pal/content/" + "paks" == "pal/content/paks";
  }

  lemma TakenWorkshop()
    ensures ROOTS[5] == Lowercase(Joined(TAKEN[5]))
  {
    LowerFour("steamapps", "workshop", "content", "1623730", "steamapps", "workshop", "content", "1623730");
    hide Lowercase, Joined;
    assert "steamapps" + "/" == "steamapps/";
    assert "steamapps/" + "workshop" == "steamapps/workshop";
    assert "steamapps/workshop" + "/" == "steamapps/workshop/";
    assert "steamapps/workshop/" + "content" == "steamapps/workshop/content";
    assert "steamapps/workshop/content" + "/" == "steamapps/workshop/content/";
    assert "steamapps/workshop/content/" + "1623730" == "steamapps/workshop/content/1623730";
  }

  lemma TakenAre(i: nat)
    requires i < 6
    ensures |ROOTS| == 6 && ROOTS[i] == Lowercase(Joined(TAKEN[i]))
  {
    TakenFirst();
    TakenMods();
    TakenPaks();
    TakenWorkshop();
  }

  // ---------------------------------------------------------------- the game's own archives

  /** A prefix of a name, whatever the case of the letters. */
  lemma LoweredStart(s: string, t: string)
    ensures StartsWith(Lowercase(s), Lowercase(t)) <==> |t| <= |s| && SameName(s[..|t|], t)
  {
    if |t| <= |s| {
      LowercaseIsSame(s[..|t|], t);
      LowercaseAppend(s[..|t|], s[|t|..]);
      assert s[..|t|] + s[|t|..] == s;
    }
  }

  /** A beginning without a slash is a beginning of the first component. */
  lemma StartOfFirst(a: string, x: string, t: string)
    requires '/' !in t
    ensures StartsWith(a + "/" + x, t) <==> StartsWith(a, t)
  {
    var s := a + "/" + x;
    assert s[|a|] == '/';
    if StartsWith(s, t) {
      assert forall i | 0 <= i < |t| :: s[..|t|][i] == t[i] == s[i];
      assert |t| <= |a|;
      assert s[..|t|] == a[..|t|];
    }
    if StartsWith(a, t) {
      assert s[..|t|] == a[..|t|];
    }
  }

  /** Behind a folder the rest of the path begins. */
  lemma {:induction false} JoinedRest(p: Path, n: nat)
    requires 0 < n < |p|
    ensures Joined(p) == Joined(p[..n]) + "/" + Joined(p[n..])
  {
    JoinedFront(p);
    if n == 1 {
      assert p[..1] == [p[0]];
    } else {
      JoinedRest(p[1..], n - 1);
      JoinedFront(p[..n]);
      assert p[1..][..n - 1] == p[..n][1..] && p[1..][n - 1..] == p[n..];
      var a, b, c := p[0] + "/", Joined(p[1..][..n - 1]), "/" + Joined(p[n..]);
      assert a + (b + c) == (a + b) + c;
      assert Joined(p[1..]) == b + c;
    }
  }

  lemma StartOfRest(p: Path, t: string)
    requires p != [] && '/' !in t
    ensures StartsWith(Joined(p), t) <==> StartsWith(p[0], t)
  {
    if |p| > 1 {
      JoinedFront(p);
      StartOfFirst(p[0], Joined(p[1..]), t);
    }
  }

  lemma AfterFolder(a: string, x: string, t: string)
    ensures StartsWith(a + "/" + x, a + "/" + t) <==> StartsWith(x, t)
  {
    var s := a + "/" + x;
    assert s == (a + "/") + x && a + "/" + t == (a + "/") + t;
    assert s[|a| + 1..] == x;
    if StartsWith(s, a + "/" + t) {
      assert s[..|a + "/" + t|][|a| + 1..] == t == x[..|t|];
    }
    if StartsWith(x, t) {
      assert s[..|a + "/" + t|] == a + "/" + x[..|t|];
    }
  }

  /** A beginning that continues behind a folder is one of the component that follows there. */
  lemma StartBelow(p: Path, folder: Path, t: string)
    requires Components(p) && Components(folder) && p != [] && folder != [] && '/' !in t && t != ""
    ensures StartsWith(Joined(p), Joined(folder) + "/" + t) <==>
      |folder| < |p| && p[..|folder|] == folder && StartsWith(p[|folder|], t)
  {
    var f := Joined(folder) + "/";
    if StartsWith(Joined(p), f + t) {
      assert Joined(p)[..|f|] == (f + t)[..|f|] == f;
    }
    JoinedAnew(p, folder);
    if |folder| < |p| && p[..|folder|] == folder {
      JoinedRest(p, |folder|);
      AfterFolder(Joined(folder), Joined(p[|folder|..]), t);
      StartOfRest(p[|folder|..], t);
    }
  }

  lemma PaksStart()
    ensures SERVER_PAKS == Joined(LowerAll(["Pal", "Content", "Paks"])) + "/" + Lowercase("Pal-WindowsServer.")
    ensures '/' !in Lowercase("Pal-WindowsServer.") && |Lowercase("Pal-WindowsServer.")| == 18
  {
    TakenPaks();
    PakBegins();
    hide Lowercase, Joined;
    LowercaseJoined(["Pal", "Content", "Paks"]);
    assert "pal/content/paks" + "/" == "pal/content/paks/";
    assert "pal/content/paks/" + "pal-windowsserver." == "pal/content/paks/pal-windowsserver.";
  }

  lemma PakBegins()
    ensures Lowercase("Pal-WindowsServer.") == "pal-windowsserver." && '/' !in "pal-windowsserver."
  {
    LowerIs("Pal-WindowsServer.", "pal-windowsserver.");
  }

  lemma GamePakIs(p: Path)
    requires Components(p) && p != []
    ensures StartsWith(Lowercase(Joined(p)), SERVER_PAKS) <==> GamePak(p)
  {
    hide Lowercase, StartsWith, Joined;
    var folder: Path := ["Pal", "Content", "Paks"];
    PaksStart();
    LowercaseJoined(p);
    LowerAllComponents(p);
    assert Components(folder) by { PaksAreNamed(); }
    LowerAllComponents(folder);
    StartBelow(LowerAll(p), LowerAll(folder), Lowercase("Pal-WindowsServer."));
    if |p| >= 3 {
      LoweredPrefix(p, folder);
    }
    if |p| > 3 {
      LoweredStart(p[3], "Pal-WindowsServer.");
    }
  }

  lemma PaksAreNamed()
    ensures Components(["Pal", "Content", "Paks"])
  {
  }

  /** What is essential of a Palworld server, component by component. */
  lemma EssentialMeans(p: Path, isDir: bool)
    requires Components(p) && p != []
    ensures Essential(p, isDir) <==> WorthSaving(p, isDir)
  {
    hide Lowercase, StartsWith, Joined, Within, Below, GamePak, Components;
    var n := Lowercase(Joined(p));
    FoldersAreNamed();
    forall i | 0 <= i < 3 ensures Within(n, EXCLUDED[i]) <==> Below(p, LEFT_OUT[i]) {
      LeftOutAre(i);
      WithinIsBelow(p, LEFT_OUT[i]);
    }
    forall i | 0 <= i < 6
      ensures Within(n, ROOTS[i]) <==> Below(p, TAKEN[i])
      ensures StartsWith(ROOTS[i], n + "/") <==> |p| < |TAKEN[i]| && Below(TAKEN[i], p)
    {
      TakenAre(i);
      WithinIsBelow(p, TAKEN[i]);
    }
    GamePakIs(p);
    SizesAgree();
    forall i | 0 <= i < 6 ensures Below(TAKEN[i], p) ==> |p| < |TAKEN[i]| || Below(p, TAKEN[i]) {
      BelowBothWays(p, TAKEN[i]);
    }
  }

  lemma SizesAgree()
    ensures |EXCLUDED| == |LEFT_OUT| == 3 && |ROOTS| == |TAKEN| == 6
  {
  }

  lemma BelowBothWays(p: Path, folder: Path)
    ensures Below(folder, p) ==> |p| < |folder| || Below(p, folder)
  {
  }

  // ---------------------------------------------------------------- what is kept and what is protected

  lemma NamesAreComponents(job: Job, p: Path)
    requires Named(job.tree) && p in job.tree
    ensures Components(p)
  {
    forall i | 0 <= i < |p| ensures Component(p[i]) {
      assert Ordinary(p[i]);
    }
  }

  /** Everything but links and the application's own folder; in the small scope only what is worth saving. */
  lemma KeptMeans(job: Job, p: Path)
    requires Named(job.tree)
    ensures Kept(job, p) <==>
      && p in job.tree && p != [] && p[0] != ".server-hub" && !job.tree[p].Symlink?
      && (job.scope.PalworldEssential? ==> WorthSaving(p, job.tree[p].Dir?))
  {
    hide Essential, WorthSaving;
    if p in job.tree && p != [] {
      NamesAreComponents(job, p);
      EssentialMeans(p, job.tree[p].Dir?);
    }
  }

  /** The file with the passwords of a Palworld server. */
  const SETTINGS: Path := ["Pal", "Saved", "Config", "WindowsServer", "PalWorldSettings.ini"]

  predicate IsSettings(p: Path) { |p| == 5 && forall i | 0 <= i < 5 :: SameName(p[i], SETTINGS[i]) }

  lemma SettingsFolder()
    ensures Lowercase(Joined(["Pal", "Saved", "Config", "WindowsServer"])) == "pal/saved/config/windowsserver"
  {
    LowerFour("Pal", "Saved", "Config", "WindowsServer", "pal", "saved", "config", "windowsserver");
    hide Lowercase, Joined;
    assert "pal" + "/" == "pal/";
    assert "pal/" + "saved" == "pal/saved";
    assert "pal/saved" + "/" == "pal/saved/";
    assert "pal/saved/" + "config" == "pal/saved/config";
    assert "pal/saved/config" + "/" == "pal/saved/config/";
    assert "pal/saved/config/" + "windowsserver" == "pal/saved/config/windowsserver";
  }

  lemma SettingsFile()
    ensures Lowercase("PalWorldSettings.ini") == "palworldsettings.ini" && Lowercase("/") == "/"
  {
    LowerIs("PalWorldSettings.ini", "palworldsettings.ini");
    LowerIs("/", "/");
  }

  lemma SettingsJoined()
    ensures Components(SETTINGS) && |SETTINGS| == 5
    ensures Joined(SETTINGS) == Joined(["Pal", "Saved", "Config", "WindowsServer"]) + "/" + "PalWorldSettings.ini"
  {
    assert SETTINGS[..4] == ["Pal", "Saved", "Config", "WindowsServer"];
  }

  lemma SettingsAre()
    ensures Components(SETTINGS) && SECRET == Lowercase(Joined(SETTINGS))
  {
    hide Lowercase, Joined, Components;
    SettingsJoined();
    SettingsFolder();
    SettingsFile();
    var folder := Joined(["Pal", "Saved", "Config", "WindowsServer"]);
    LowercaseAppend(folder, "/");
    LowercaseAppend(folder + "/", "PalWorldSettings.ini");
    assert "pal/saved/config/windowsserver" + "/" == "pal/saved/config/windowsserver/";
    assert "pal/saved/config/windowsserver/" + "palworldsettings.ini" == SECRET;
  }

  lemma SecretMeans(job: Job, p: Path)
    requires Components(p) && p != []
    ensures IsSecret(job, p) <==> job.profile.palworld && IsSettings(p)
    ensures IsSettings(p) ==> Lowercase(Joined(p)) == "pal/saved/config/windowsserver/palworldsettings.ini"
  {
    hide Lowercase, Joined;
    SettingsAre();
    LowercaseJoined(p);
    LowercaseJoined(SETTINGS);
    LowerAllComponents(p);
    LowerAllComponents(SETTINGS);
    JoinedSame(LowerAll(p), LowerAll(SETTINGS));
    if |p| == 5 {
      LoweredPrefix(p, SETTINGS);
      assert LowerAll(p)[..5] == LowerAll(p);
    }
  }

  /** What an archive holds for a path: a folder, the file's own bytes, or the protected form of the settings. */
  ghost predicate HoldsProperly(job: Job, e: Entry) {
    && Kept(job, e.name)
    && (e.DirEntry? <==> job.tree[e.name].Dir?)
    && (e.FileEntry? ==>
          job.tree[e.name].File?
          && var bytes := job.tree[e.name].bytes;
             if job.profile.palworld && IsSettings(e.name) then
               && |bytes| <= 8388608 && (Sound(job.protector) ==> job.protector.isBlob(e.stored))
               && job.protector.protect(
                    job.profile.id + ['\U{1F}'] + job.backupId + ['\U{1F}']
                    + "pal/saved/config/windowsserver/palworldsettings.ini", bytes) == Some(e.stored)
             else e.stored == bytes)
  }

  lemma EntryHoldsProperly(job: Job, p: Path)
    requires Named(job.tree) && Kept(job, p) && EntryFor(job, p).Done?
    ensures EntryFor(job, p).value.name == p && HoldsProperly(job, EntryFor(job, p).value)
  {
    hide Lowercase, Joined, Essential, IsSettings;
    NamesAreComponents(job, p);
    SecretMeans(job, p);
  }

  lemma {:induction false} FirstHoldProperly(job: Job, walk: seq<Path>, n: nat)
    requires n <= |walk| && InTree(job, walk) && Named(job.tree) && ArchiveFirst(job, walk, n).Done?
    ensures forall e <- ArchiveFirst(job, walk, n).value :: HoldsProperly(job, e)
  {
    hide HoldsProperly, EntryFor, Kept;
    if n > 0 {
      FirstHoldProperly(job, walk, n - 1);
      if Kept(job, walk[n - 1]) {
        EntryHoldsProperly(job, walk[n - 1]);
      }
    }
  }

  /**
   In a written archive the settings of a Palworld server are there in protected
   form, for the scope of this profile, backup and file, and everything else as
   it is, whatever the case of the letters in the file's name.
   */
  lemma ArchiveHoldsProperly(job: Job, walk: seq<Path>, e: Entry)
    requires InTree(job, walk) && Named(job.tree)
    requires ArchiveFirst(job, walk, |walk|).Done? && e in ArchiveFirst(job, walk, |walk|).value
    ensures HoldsProperly(job, e)
  {
    FirstHoldProperly(job, walk, |walk|);
  }

  lemma {:induction false} NamesFirst(job: Job, walk: seq<Path>, n: nat, p: Path)
    requires n <= |walk| && InTree(job, walk) && ArchiveFirst(job, walk, n).Done?
    ensures (exists e <- ArchiveFirst(job, walk, n).value :: e.name == p) <==> p in walk[..n] && Kept(job, p)
  {
    hide Kept;
    if n > 0 {
      NamesFirst(job, walk, n - 1, p);
      assert walk[..n] == walk[..n - 1] + [walk[n - 1]];
      if Kept(job, walk[n - 1]) {
        EntryIsNamed(job, walk[n - 1]);
        var before, last := ArchiveFirst(job, walk, n - 1).value, EntryFor(job, walk[n - 1]).value;
        if last.name == p {
          assert last in before + [last];
        }
        if e :| e in before && e.name == p {
          assert e in before + [last];
        }
      }
    }
  }

  lemma EntryIsNamed(job: Job, p: Path)
    requires Kept(job, p) && EntryFor(job, p).Done?
    ensures EntryFor(job, p).value.name == p
  {
    hide IsSecret;
  }

  /** An archive has an entry for every kept path of the walk, and for no other. */
  lemma ArchiveNames(job: Job, walk: seq<Path>, p: Path)
    requires InTree(job, walk) && ArchiveFirst(job, walk, |walk|).Done?
    ensures (exists e <- ArchiveFirst(job, walk, |walk|).value :: e.name == p) <==> p in walk && Kept(job, p)
  {
    NamesFirst(job, walk, |walk|, p);
    assert walk[..|walk|] == walk;
  }

  /** For instance the settings under the name that the game itself uses. */
  lemma SettingsAreProtected(job: Job, walk: seq<Path>) returns (e: Entry)
    requires InTree(job, walk) && Named(job.tree) && Sound(job.protector) && ArchiveFirst(job, walk, |walk|).Done?
    requires job.profile.palworld && job.scope.Full? && SETTINGS in walk && job.tree[SETTINGS].File?
    ensures e in ArchiveFirst(job, walk, |walk|).value && e.FileEntry?
    ensures e.name == ["Pal", "Saved", "Config", "WindowsServer", "PalWorldSettings.ini"]
    ensures job.protector.isBlob(e.stored)
    ensures job.protector.protect(
        job.profile.id + ['\U{1F}'] + job.backupId + ['\U{1F}'] + "pal/saved/config/windowsserver/palworldsettings.ini",
        job.tree[SETTINGS].bytes) == Some(e.stored)
  {
    hide ArchiveFirst, WorthSaving, Sound;
    KeptMeans(job, SETTINGS);
    ArchiveNames(job, walk, SETTINGS);
    e :| e in ArchiveFirst(job, walk, |walk|).value && e.name == SETTINGS;
    ArchiveHoldsProperly(job, walk, e);
  }
}
