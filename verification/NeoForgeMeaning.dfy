/**
 What the versions made from NeoForge builds look like, said of the text itself:
 how numbers are read, which version a build is for, and which of two is newer.
 */
module NeoForgeMeaning {
  import opened Options
  import opened Sequences
  import opened Text
  import opened NeoForge

  // ---------------------------------------------------------------- numbers

  lemma {:induction false} DigitsMean(s: string, n: nat)
    requires n <= |s|
    ensures Digits(s, n) == if forall i | 0 <= i < n :: DecimalDigit(s[i]) then Some(Value(s, n)) else None
  {
    if n > 0 {
      DigitsMean(s, n - 1);
      DigitIs(s[n - 1]);
    }
  }

  lemma DigitIs(c: char)
    ensures IsDigit(c) <==> DecimalDigit(c)
  {
    if IsDigit(c) {
      assert "0123456789"[c as int - '0' as int] == c;
    }
  }

  predicate Decimals(s: string) { s != "" && forall i | 0 <= i < |s| :: DecimalDigit(s[i]) }

  /** Digits of a number of 32 bits, behind a plus sign or without one, are read; everything else is zero. */
  lemma ParsedMeans(s: string)
    ensures var digits := if StartsWith(s, "+") then s[1..] else s;
      ParseU32(s) == if Decimals(digits) && Value(digits, |digits|) < 4294967296 then Value(digits, |digits|) else 0
  {
    var digits := if StartsWith(s, "+") then s[1..] else s;
    assert StartsWith(s, "+") <==> s != "" && s[0] == '+';
    DigitsMean(digits, |digits|);
  }

  // ---------------------------------------------------------------- the version of a build

  /** What can stand behind the part of a build that counts. */
  predicate Rest(s: string) { s == "" || s[0] == '.' || s[0] == '-' }

  predicate NoDot(s: string) { s == "" || s[0] == '-' }

  /** The version for two components. */
  function VersionFor(major: string, minor: string): string {
    if ParseU32(major) >= 26 then major + "." + minor else "1." + major + "." + minor
  }

  /** The version is made of the first two components; a build with one is for minor version 0. */
  lemma VersionMeans(build: string) returns (major: string, minor: string, rest: string)
    ensures Plain(major) && Plain(minor) && MinecraftVersion(build) == VersionFor(major, minor)
    ensures (build == major + "." + minor + rest && Rest(rest))
            || (build == major + rest && NoDot(rest) && minor == "0")
  {
    var base := Base(build);
    var n, tail := Cut(base, '.'), Tail(base);
    major, minor := Major(base), Minor(base);
    PartsArePlain(build);
    CutExactly(build, '-');
    CutExactly(base, '.');
    CutExactly(tail, '.');
    assert MinecraftVersion(build) == VersionFor(major, minor);
    hide MinecraftVersion, VersionFor, ParseU32, Plain, Cut;
    if n == |base| {
      rest := build[n..];
      assert build == major + rest;
    } else {
      var m := n + 1 + Cut(tail, '.');
      rest := build[m..];
      assert base == major + "." + tail;
      assert build[..m] == major + "." + minor;
      assert rest != "" ==> rest[0] == build[m];
    }
  }

  /** A text in front of the first dot or hyphen is known. */
  lemma FirstPlain(a: string, x: string, b: string, y: string)
    requires Plain(a) && Plain(b) && Rest(x) && Rest(y) && a + x == b + y
    ensures a == b
  {
    var s := a + x;
    assert forall k | 0 <= k < |a| :: s[k] == a[k];
    assert forall k | 0 <= k < |b| :: s[k] == b[k];
    assert (x != "" ==> s[|a|] == x[0]) && (y != "" ==> s[|b|] == y[0]);
    assert s[..|a|] == a && s[..|b|] == b;
  }

  lemma Grouped(a: string, b: string, r: string)
    ensures a + "." + b + r == a + ("." + (b + r))
  {
  }

  lemma PairIsOnce(a: string, x: string, b: string, y: string)
    requires Plain(a) && Plain(b) && a + ("." + x) == b + ("." + y)
    ensures a == b && x == y
  {
    FirstPlain(a, "." + x, b, "." + y);
    assert ("." + x)[1..] == x && ("." + y)[1..] == y;
    assert (a + ("." + x))[|a|..] == "." + x && (b + ("." + y))[|b|..] == "." + y;
  }

  lemma PairIsNoSingle(a: string, x: string, b: string, y: string)
    requires Plain(a) && Plain(b) && NoDot(y)
    ensures a + ("." + x) != b + y
  {
    assert (a + ("." + x))[|a|] == '.' && (y != "" ==> (b + y)[|b|] == '-');
    if a + ("." + x) == b + y {
      FirstPlain(a, "." + x, b, y);
    }
  }

  /** And the other way round: whatever follows two components does not matter. */
  lemma VersionOfParts(major: string, minor: string, rest: string)
    requires Plain(major) && Plain(minor) && Rest(rest)
    ensures MinecraftVersion(major + "." + minor + rest) == VersionFor(major, minor)
  {
    hide MinecraftVersion, VersionFor, Plain, Rest, NoDot;
    var build := major + "." + minor + rest;
    var a, b, r := VersionMeans(build);
    Grouped(major, minor, rest);
    Grouped(a, b, r);
    if NoDot(r) {
      PairIsNoSingle(major, minor + rest, a, r);
    }
    if build == a + "." + b + r && Rest(r) {
      PairIsOnce(major, minor + rest, a, b + r);
      FirstPlain(minor, rest, b, r);
    }
  }

  /** The prefix of an old version leaves its "1." out. */
  lemma PrefixMeans(version: string)
    ensures Prefix(version) == (if StartsWith(version, "1.") then version[2..] else version) + "."
  {
    assert StartsWith(version, "1.") <==> |version| >= 2 && version[0] == '1' && version[1] == '.';
  }

  lemma NumbersOfSamples()
    ensures ParseU32("21") == 21 && ParseU32("26") == 26
  {
    assert Digits("21", 0) == Some(0) && Digits("21", 1) == Some(2) && Digits("21", 2) == Some(21);
    assert Digits("26", 0) == Some(0) && Digits("26", 1) == Some(2) && Digits("26", 2) == Some(26);
  }

  /** Builds of both numberings, and the prefix of an old version. */
  lemma Samples()
    ensures MinecraftVersion("21.1.219") == "1.21.1"
    ensures MinecraftVersion("26.1.0-beta") == "26.1"
    ensures Prefix("1.20.6") == "20.6."
  {
    hide MinecraftVersion, ParseU32;
    NumbersOfSamples();
    VersionOfParts("21", "1", ".219");
    assert "21" + "." + "1" + ".219" == "21.1.219" && "1." + "21" + "." + "1" == "1.21.1";
    VersionOfParts("26", "1", ".0-beta");
    assert "26" + "." + "1" + ".0-beta" == "26.1.0-beta" && "26" + "." + "1" == "26.1";
    assert "1.20.6"[2..] + "." == "20.6.";
  }

  // ---------------------------------------------------------------- what is read from the metadata

  predicate StandsAt(s: string, n: nat, pattern: string) { n + |pattern| <= |s| && s[n..n + |pattern|] == pattern }

  /** The pattern stands at n, and nowhere from i up to there. */
  predicate FirstAt(s: string, pattern: string, i: nat, n: nat) {
    i <= n && StandsAt(s, n, pattern) && forall k | i <= k < n :: !StandsAt(s, k, pattern)
  }

  predicate Nowhere(s: string, pattern: string, i: nat) { forall k: nat | i <= k <= |s| :: !StandsAt(s, k, pattern) }

  lemma AtMeans(s: string, i: nat, pattern: string)
    ensures At(s, i, pattern) <==> StandsAt(s, i, pattern)
  {
    if StandsAt(s, i, pattern) {
      forall k | 0 <= k < |pattern| ensures s[i + k] == pattern[k] {
        assert s[i..i + |pattern|][k] == pattern[k];
      }
    }
  }

  lemma {:induction false} FindMeans(s: string, pattern: string, i: nat)
    requires i <= |s|
    ensures match Find(s, pattern, i)
            case Some(n) => FirstAt(s, pattern, i, n)
            case None => Nowhere(s, pattern, i)
    decreases |s| - i
  {
    hide At, StandsAt;
    AtMeans(s, i, pattern);
    if !At(s, i, pattern) {
      if i < |s| {
        FindMeans(s, pattern, i + 1);
      }
    }
  }

  /** The next element begins at the first opening tag and ends at the first closing one behind it. */
  lemma SpansMean(text: string, open: string, close: string, i: nat)
    requires i <= |text| && open != ""
    ensures var spans := SpansFrom(text, open, close, i);
      if spans == [] then
        Nowhere(text, open, i) || exists n: nat :: FirstAt(text, open, i, n) && Nowhere(text, close, n + |open|)
      else
        var from, end := spans[0].from, spans[0].end;
        && i + |open| <= from && FirstAt(text, open, i, from - |open|) && FirstAt(text, close, from, end)
        && end + |close| <= |text| && spans[1..] == SpansFrom(text, open, close, end + |close|)
  {
    hide StandsAt;
    FindMeans(text, open, i);
    var start := Find(text, open, i);
    if start.Some? {
      FindMeans(text, close, start.value + |open|);
    }
  }

  // ---------------------------------------------------------------- which is newer

  /** The first number that differs is greater, or there is a further one. */
  predicate Newer(a: seq<nat>, b: seq<nat>) {
    exists n | 0 <= n < |a| && n <= |b| :: a[..n] == b[..n] && (n == |b| || a[n] > b[n])
  }

  lemma {:induction false} ComparedMeans(a: seq<nat>, b: seq<nat>)
    ensures CompareKeys(a, b) > 0 <==> Newer(a, b)
    ensures CompareKeys(a, b) == 0 <==> a == b
  {
    if a != [] && b != [] && a[0] == b[0] {
      ComparedMeans(a[1..], b[1..]);
      NewerBehind(a, b);
      assert a == [a[0]] + a[1..] && b == [b[0]] + b[1..];
    } else if a != [] && (b == [] || a[0] > b[0]) {
      assert a[..0] == b[..0];
    } else {
      forall n | 0 <= n < |a| && n <= |b| ensures !(a[..n] == b[..n] && (n == |b| || a[n] > b[n])) {
        assert n > 0 ==> a[..n][0] == a[0] && b[..n][0] == b[0];
      }
    }
  }

  lemma NewerBehind(a: seq<nat>, b: seq<nat>)
    requires a != [] && b != [] && a[0] == b[0]
    ensures Newer(a, b) <==> Newer(a[1..], b[1..])
  {
    var x, y := a[1..], b[1..];
    if Newer(x, y) {
      var n :| 0 <= n < |x| && n <= |y| && x[..n] == y[..n] && (n == |y| || x[n] > y[n]);
      assert a[..n + 1] == [a[0]] + x[..n] && b[..n + 1] == [b[0]] + y[..n];
      assert a[n + 1] == x[n];
    }
    if Newer(a, b) {
      var n :| 0 <= n < |a| && n <= |b| && a[..n] == b[..n] && (n == |b| || a[n] > b[n]);
      assert n > 0;
      assert x[..n - 1] == a[..n][1..] && y[..n - 1] == b[..n][1..];
    }
  }

  /** The list begins with the newest version, shows forty at most, and none that is newer than one above it. */
  lemma ListedMeans(builds: seq<string>)
    ensures var list := ListVersions(builds);
      && |list| == (if EntriesOf(builds) <= 40 then EntriesOf(builds) else 40)
      && forall i, j | 0 <= i < j < |list| :: !Newer(VersionKey(list[j]), VersionKey(list[i]))
  {
    hide ListVersions, EntriesOf, VersionKey, CompareKeys, Newer;
    var list := ListVersions(builds);
    ListedNewestFirst(builds);
    ListLength(builds);
    forall i, j | 0 <= i < j < |list| ensures !Newer(VersionKey(list[j]), VersionKey(list[i])) {
      assert NewestFirst()(list[i], list[j]) <= 0;
      ComparedMeans(VersionKey(list[j]), VersionKey(list[i]));
    }
  }

  /** The build that is chosen: no candidate is newer, and none behind it has the same numbers. */
  lemma SelectedMeans(builds: seq<string>, version: string, best: string)
    requires LastGreatest(builds, IsCandidate(version), OldestFirst(), best)
    ensures exists i | 0 <= i < |builds| ::
      && builds[i] == best && StartsWith(best, Prefix(version))
      && (forall j | 0 <= j < |builds| && StartsWith(builds[j], Prefix(version)) ::
            !Newer(VersionKey(builds[j]), VersionKey(best)))
      && forall j | i < j < |builds| && StartsWith(builds[j], Prefix(version)) ::
           Newer(VersionKey(best), VersionKey(builds[j]))
  {
    hide StartsWith, Prefix, VersionKey, CompareKeys, Newer;
    var i :| 0 <= i < |builds| && builds[i] == best && IsCandidate(version)(best)
      && (forall j | 0 <= j < |builds| && IsCandidate(version)(builds[j]) :: OldestFirst()(builds[j], best) <= 0)
      && forall j | i < j < |builds| && IsCandidate(version)(builds[j]) :: OldestFirst()(best, builds[j]) > 0;
    forall j | 0 <= j < |builds| && StartsWith(builds[j], Prefix(version))
      ensures !Newer(VersionKey(builds[j]), VersionKey(best))
      ensures i < j ==> Newer(VersionKey(best), VersionKey(builds[j]))
    {
      assert IsCandidate(version)(builds[j]);
      ComparedMeans(VersionKey(builds[j]), VersionKey(best));
      ComparedMeans(VersionKey(best), VersionKey(builds[j]));
    }
  }

  /** Where there is a choice, the build is known. */
  lemma SelectedOnce(builds: seq<string>, version: string, x: string, y: string)
    requires LastGreatest(builds, IsCandidate(version), OldestFirst(), x)
    requires LastGreatest(builds, IsCandidate(version), OldestFirst(), y)
    ensures x == y
  {
    hide IsCandidate, OldestFirst;
    var f, keep := OldestFirst(), IsCandidate(version);
    var i :| 0 <= i < |builds| && builds[i] == x && keep(x)
      && (forall j | 0 <= j < |builds| && keep(builds[j]) :: f(builds[j], x) <= 0)
      && forall j | i < j < |builds| && keep(builds[j]) :: f(x, builds[j]) > 0;
    var k :| 0 <= k < |builds| && builds[k] == y && keep(y)
      && (forall j | 0 <= j < |builds| && keep(builds[j]) :: f(builds[j], y) <= 0)
      && forall j | k < j < |builds| && keep(builds[j]) :: f(y, builds[j]) > 0;
    assert f(x, y) <= 0 && f(y, x) <= 0;
  }
}
