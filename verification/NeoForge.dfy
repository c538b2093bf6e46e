/**
 Which Minecraft version a NeoForge build is for. The list of versions maps
 every build to a version; the download finds builds by a prefix made from the
 version. Both have to agree.
 */
module NeoForge {
  import opened Options
  import opened Sequences
  import opened Text

  const OPEN: string := "<version>"
  const CLOSE: string := "</version>"
  const LISTED: nat := 40
  const NEW_SCHEME: nat := 26

  // ---------------------------------------------------------------- numbers

  /** The value of the first n digits; None where one of them is no digit. */
  function Digits(s: string, n: nat): Option<nat>
    requires n <= |s|
  {
    if n == 0 then Some(0)
    else if Digits(s, n - 1).None? || !IsDigit(s[n - 1]) then None
    else Some(10 * Digits(s, n - 1).value + (s[n - 1] as int - '0' as int))
  }

  /** A number of 32 bits; zero for everything else. */
  function ParseU32(s: string): nat {
    var digits := if s != "" && s[0] == '+' then s[1..] else s;
    if digits == "" then 0
    else
      match Digits(digits, |digits|)
      case None => 0
      case Some(n) => if n < 0x1_0000_0000 then n else 0
  }

  // ---------------------------------------------------------------- parts of a build

  /** Where c first stands. */
  function Cut(s: string, c: char): (n: nat)
    ensures n <= |s|
  {
    CutFrom(s, c, 0)
  }

  function CutFrom(s: string, c: char, i: nat): (n: nat)
    requires i <= |s|
    ensures i <= n <= |s|
    decreases |s| - i
  {
    if i == |s| || s[i] == c then i else CutFrom(s, c, i + 1)
  }

  lemma {:induction false} CutFromExactly(s: string, c: char, i: nat)
    requires i <= |s|
    ensures forall k | i <= k < CutFrom(s, c, i) :: s[k] != c
    ensures CutFrom(s, c, i) < |s| ==> s[CutFrom(s, c, i)] == c
    decreases |s| - i
  {
    if i < |s| && s[i] != c {
      CutFromExactly(s, c, i + 1);
    }
  }

  lemma CutExactly(s: string, c: char)
    ensures c !in s[..Cut(s, c)] && (Cut(s, c) < |s| ==> s[Cut(s, c)] == c)
  {
    CutFromExactly(s, c, 0);
  }

  lemma CutIs(s: string, c: char, n: nat)
    requires n < |s| && s[n] == c && forall k | 0 <= k < n :: s[k] != c
    ensures Cut(s, c) == n
  {
    CutFromExactly(s, c, 0);
  }

  /** What stands in front of the first hyphen. */
  function Base(build: string): string { build[..Cut(build, '-')] }

  function Major(base: string): string { base[..Cut(base, '.')] }

  /** What stands behind the first dot. */
  function Tail(base: string): string { if Cut(base, '.') < |base| then base[Cut(base, '.') + 1..] else "" }

  function Minor(base: string): string {
    if Cut(base, '.') < |base| then Tail(base)[..Cut(Tail(base), '.')] else "0"
  }

  /** The base has three components or more. */
  predicate Full(base: string) { Cut(base, '.') < |base| && Cut(Tail(base), '.') < |Tail(base)| }

  function MinecraftVersion(build: string): string {
    var major, minor := Major(Base(build)), Minor(Base(build));
    if ParseU32(major) >= NEW_SCHEME then major + "." + minor else "1." + major + "." + minor
  }

  function Prefix(version: string): string {
    if |version| >= 2 && version[0] == '1' && version[1] == '.' then version[2..] + "." else version + "."
  }

  // ---------------------------------------------------------------- the two agree

  predicate Plain(s: string) { '.' !in s && '-' !in s }

  lemma PartsArePlain(build: string)
    ensures Plain(Major(Base(build))) && Plain(Minor(Base(build)))
  {
    var base := Base(build);
    CutExactly(build, '-');
    CutExactly(base, '.');
    CutExactly(Tail(base), '.');
    assert forall k | 0 <= k < |base| :: base[k] != '-';
    assert forall k | 0 <= k < |Tail(base)| :: Tail(base)[k] != '-';
  }

  /** The prefix of a build's own version is made of the build's own first two components. */
  lemma PrefixOfVersion(build: string)
    ensures Prefix(MinecraftVersion(build)) == Major(Base(build)) + "." + Minor(Base(build)) + "."
  {
    var major, minor := Major(Base(build)), Minor(Base(build));
    var version := MinecraftVersion(build);
    PartsArePlain(build);
    if ParseU32(major) >= NEW_SCHEME {
      if |version| >= 2 && version[0] == '1' && version[1] == '.' {
        MajorIsOne(major, minor);
      }
    } else {
      assert version[2..] == major + "." + minor;
    }
  }

  /** A version that begins with "1." does not come from the new numbering. */
  lemma MajorIsOne(major: string, minor: string)
    requires Plain(major) && var v := major + "." + minor; |v| >= 2 && v[0] == '1' && v[1] == '.'
    ensures ParseU32(major) < NEW_SCHEME
  {
    var v := major + "." + minor;
    assert (forall k | 0 <= k < |major| :: v[k] == major[k]) && v[|major|] == '.';
    assert major == "1";
    assert Digits(major, 0) == Some(0) && Digits(major, 1) == Some(1);
  }

  /** A build starts with two components exactly when it has a third behind them. */
  lemma StartsWithParts(build: string, major: string, minor: string)
    requires Plain(major) && Plain(minor)
    ensures StartsWith(build, major + "." + minor + ".") <==>
      Full(Base(build)) && Major(Base(build)) == major && Minor(Base(build)) == minor
  {
    var prefix := major + "." + minor + ".";
    if StartsWith(build, prefix) {
      PrefixGivesParts(build, major, minor);
    }
    if Full(Base(build)) && Major(Base(build)) == major && Minor(Base(build)) == minor {
      PartsGivePrefix(build);
    }
  }

  /** A prefix without a hyphen lies in front of the first one. */
  lemma PrefixIsOfBase(build: string, prefix: string)
    requires '-' !in prefix && StartsWith(build, prefix)
    ensures StartsWith(Base(build), prefix)
  {
    CutExactly(build, '-');
    assert forall k | 0 <= k < |prefix| :: build[..|prefix|][k] == prefix[k] && prefix[k] != '-';
    assert Base(build)[..|prefix|] == build[..|prefix|];
  }

  /** What stands in front of the first dot, and behind it. */
  lemma FirstPart(base: string, part: string, rest: string)
    requires '.' !in part && StartsWith(base, part + "." + rest)
    ensures Cut(base, '.') == |part| < |base| && Major(base) == part && StartsWith(Tail(base), rest)
  {
    var prefix := part + "." + rest;
    assert forall k | 0 <= k < |prefix| :: base[k] == base[..|prefix|][k] == prefix[k];
    assert forall k | 0 <= k < |part| :: prefix[k] == part[k];
    CutIs(base, '.', |part|);
    assert Tail(base)[..|rest|] == prefix[|part| + 1..] == rest;
  }

  lemma PrefixGivesParts(build: string, major: string, minor: string)
    requires Plain(major) && Plain(minor) && StartsWith(build, major + "." + minor + ".")
    ensures Full(Base(build)) && Major(Base(build)) == major && Minor(Base(build)) == minor
  {
    hide Base, Cut, Tail, Major, StartsWith;
    var base := Base(build);
    PrefixIsOfBase(build, major + "." + minor + ".");
    assert major + "." + minor + "." == major + "." + (minor + ".");
    FirstPart(base, major, minor + ".");
    assert minor + "." == minor + "." + "";
    FirstPart(Tail(base), minor, "");
    assert Major(Tail(base)) == minor;
    PartIsCut(Tail(base));
  }

  lemma PartIsCut(base: string)
    ensures Major(base) == base[..Cut(base, '.')]
  {
  }

  lemma PartsGivePrefix(build: string)
    requires Full(Base(build))
    ensures StartsWith(build, Major(Base(build)) + "." + Minor(Base(build)) + ".")
  {
    var base := Base(build);
    var n, m := Cut(base, '.'), Cut(Tail(base), '.');
    CutExactly(base, '.');
    CutExactly(Tail(base), '.');
    assert base[n + 1 + m] == Tail(base)[m] == '.';
    assert base[..n + m + 2] == Major(base) + "." + Minor(base) + ".";
    assert build[..n + m + 2] == base[..n + m + 2];
  }

  /** Two builds are for the same version exactly when their first two components agree. */
  lemma SameVersion(build: string, other: string)
    ensures MinecraftVersion(build) == MinecraftVersion(other) <==>
      Major(Base(build)) == Major(Base(other)) && Minor(Base(build)) == Minor(Base(other))
  {
    if MinecraftVersion(build) == MinecraftVersion(other) {
      PrefixOfVersion(build);
      PrefixOfVersion(other);
      PartsArePlain(build);
      PartsArePlain(other);
      PairSplitsOnce(Major(Base(build)), Minor(Base(build)), Major(Base(other)), Minor(Base(other)));
    }
  }

  lemma PairSplitsOnce(a: string, b: string, c: string, d: string)
    requires Plain(a) && Plain(b) && Plain(c) && Plain(d) && a + "." + b + "." == c + "." + d + "."
    ensures a == c && b == d
  {
    var s := a + "." + b + ".";
    assert forall k | 0 <= k < |a| :: s[k] == a[k];
    assert forall k | 0 <= k < |c| :: s[k] == c[k];
    CutIs(s, '.', |a|);
    CutIs(s, '.', |c|);
    assert s[..|a|] == a && s[..|c|] == c;
    assert s[|a| + 1..|s| - 1] == b && s[|c| + 1..|s| - 1] == d;
  }

  /**
   A build is found for the version of some other build exactly when it has at
   least three components and is for that same version itself.
   */
  lemma FoundExactly(build: string, other: string)
    ensures StartsWith(build, Prefix(MinecraftVersion(other))) <==>
      Full(Base(build)) && MinecraftVersion(build) == MinecraftVersion(other)
  {
    PrefixOfVersion(other);
    PartsArePlain(other);
    StartsWithParts(build, Major(Base(other)), Minor(Base(other)));
    SameVersion(build, other);
  }

  /** So a build finds itself exactly when it has three components; one with two is listed but never found. */
  lemma FindsItselfExactly(build: string)
    ensures StartsWith(build, Prefix(MinecraftVersion(build))) <==> Full(Base(build))
  {
    FoundExactly(build, build);
  }

  // ---------------------------------------------------------------- the metadata

  predicate At(s: string, i: nat, pattern: string) {
    i + |pattern| <= |s| && forall k | 0 <= k < |pattern| :: s[i + k] == pattern[k]
  }

  /** Where the pattern first stands, from i on. */
  function Find(s: string, pattern: string, i: nat): (r: Option<nat>)
    requires i <= |s|
    ensures r.Some? ==> i <= r.value && r.value + |pattern| <= |s|
    decreases |s| - i
  {
    if At(s, i, pattern) then Some(i) else if i == |s| then None else Find(s, pattern, i + 1)
  }

  lemma {:induction false} FindFirst(s: string, pattern: string, i: nat, n: nat)
    requires i <= n && At(s, n, pattern) && forall k | i <= k < n :: !At(s, k, pattern)
    ensures Find(s, pattern, i) == Some(n)
    decreases n - i
  {
    if i < n {
      FindFirst(s, pattern, i + 1, n);
    }
  }

  lemma {:induction false} FindNothing(s: string, pattern: string, i: nat)
    requires i <= |s| && forall k | i <= k <= |s| :: !At(s, k, pattern)
    ensures Find(s, pattern, i) == None
    decreases |s| - i
  {
    if i < |s| {
      FindNothing(s, pattern, i + 1);
    }
  }

  /** Where an element's text begins and where its closing tag does. */
  datatype Span = Span(from: nat, end: nat)

  /** The elements from position i on. */
  function SpansFrom(text: string, open: string, close: string, i: nat): (r: seq<Span>)
    requires i <= |text| && open != ""
    ensures forall k | 0 <= k < |r| :: r[k].from <= r[k].end <= |text|
    decreases |text| - i
  {
    match Find(text, open, i)
    case None => []
    case Some(start) =>
      match Find(text, close, start + |open|)
      case None => []
      case Some(end) => [Span(start + |open|, end)] + SpansFrom(text, open, close, end + |close|)
  }

  function Piece(text: string, span: Span): string {
    if span.from <= span.end <= |text| then Trim(text[span.from..span.end]) else ""
  }

  predicate Reads(text: string, spans: seq<Span>, output: seq<string>) {
    |output| == |spans| && forall k | 0 <= k < |spans| :: output[k] == Piece(text, spans[k])
  }

  method NextSpan(text: string, open: string, close: string, rest: nat) returns (span: Option<Span>)
    requires rest <= |text| && open != ""
    ensures span.None? ==> SpansFrom(text, open, close, rest) == []
    ensures span.Some? ==> rest < span.value.from <= span.value.end && span.value.end + |close| <= |text|
    ensures span.Some? ==>
      SpansFrom(text, open, close, rest) == [span.value] + SpansFrom(text, open, close, span.value.end + |close|)
  {
    var start := Find(text, open, rest);
    if start.None? {
      return None;
    }
    var end := Find(text, close, start.value + |open|);
    if end.None? {
      return None;
    }
    span := Some(Span(start.value + |open|, end.value));
  }

  method ReadNext(text: string, ghost found: seq<Span>, output: seq<string>, span: Span) returns (more: seq<string>)
    requires Reads(text, found, output)
    ensures Reads(text, found + [span], more)
  {
    more := output + [Piece(text, span)];
  }

  method TextsBetween(text: string, open: string, close: string) returns (output: seq<string>)
    requires open != ""
    ensures Reads(text, SpansFrom(text, open, close, 0), output)
  {
    output := [];
    var rest := 0;
    ghost var found := [];
    while true
      invariant 0 <= rest <= |text|
      invariant found + SpansFrom(text, open, close, rest) == SpansFrom(text, open, close, 0)
      invariant Reads(text, found, output)
      decreases |text| - rest
    {
      var span := NextSpan(text, open, close, rest);
      if span.None? {
        break;
      }
      output := ReadNext(text, found, output, span.value);
      rest := span.value.end + |close|;
      Regroup(found, [span.value], SpansFrom(text, open, close, rest));
      found := found + [span.value];
    }
  }

  method XmlVersions(text: string) returns (output: seq<string>)
    ensures var spans := SpansFrom(text, "<version>", "</version>", 0);
      |output| == |spans| && forall k | 0 <= k < |spans| :: output[k] == Trim(text[spans[k].from..spans[k].end])
  {
    output := TextsBetween(text, OPEN, CLOSE);
  }

  /** Nothing in this part of the text could begin a tag. */
  predicate NoTag(text: string, i: nat, n: nat) { forall k | i <= k < n && k < |text| :: text[k] != '<' }

  /** Where the text goes on behind the first n elements. */
  function Behind(close: string, spans: seq<Span>, n: nat): nat
    requires n <= |spans|
  {
    if n == 0 then 0 else spans[n - 1].end + |close|
  }

  predicate ElementAt(text: string, open: string, close: string, i: nat, span: Span) {
    && i + |open| <= span.from <= span.end <= |text|
    && NoTag(text, i, span.from - |open|) && At(text, span.from - |open|, open)
    && NoTag(text, span.from, span.end) && At(text, span.end, close)
  }

  /** The text consists of these elements, with other text around them. */
  predicate Elements(text: string, open: string, close: string, spans: seq<Span>) {
    && (forall n | 0 <= n < |spans| :: ElementAt(text, open, close, Behind(close, spans, n), spans[n]))
    && NoTag(text, Behind(close, spans, |spans|), |text|)
  }

  /** Where no tag can begin no tag is found. */
  lemma NoTagFound(text: string, pattern: string, i: nat, n: nat)
    requires pattern != "" && pattern[0] == '<' && NoTag(text, i, n)
    ensures forall k | i <= k < n :: !At(text, k, pattern)
  {
    forall k | i <= k < n && k + |pattern| <= |text| ensures !At(text, k, pattern) {
      assert text[k + 0] != pattern[0];
    }
  }

  lemma FirstElement(text: string, open: string, close: string, i: nat, span: Span)
    requires open != "" && close != "" && open[0] == '<' && close[0] == '<' && ElementAt(text, open, close, i, span)
    ensures SpansFrom(text, open, close, i) == [span] + SpansFrom(text, open, close, span.end + |close|)
  {
    NoTagFound(text, open, i, span.from - |open|);
    FindFirst(text, open, i, span.from - |open|);
    NoTagFound(text, close, span.from, span.end);
    FindFirst(text, close, span.from, span.end);
  }

  lemma NothingRead(text: string, open: string, close: string, i: nat)
    requires open != "" && open[0] == '<' && i <= |text| && NoTag(text, i, |text|)
    ensures SpansFrom(text, open, close, i) == []
  {
    NoTagFound(text, open, i, |text|);
    FindNothing(text, open, i);
  }

  /** Reading gets from one element to the next. */
  predicate ReadsOn(text: string, open: string, close: string, spans: seq<Span>, n: nat)
    requires n < |spans| && open != ""
  {
    var i, next := Behind(close, spans, n), Behind(close, spans, n + 1);
    i <= |text| && next <= |text|
    && SpansFrom(text, open, close, i) == [spans[n]] + SpansFrom(text, open, close, next)
  }

  lemma {:induction false} ReadsToTheEnd(text: string, open: string, close: string, spans: seq<Span>, n: nat)
    requires open != "" && n <= |spans| && forall k | 0 <= k < |spans| :: ReadsOn(text, open, close, spans, k)
    requires Behind(close, spans, |spans|) <= |text|
    requires SpansFrom(text, open, close, Behind(close, spans, |spans|)) == []
    ensures Behind(close, spans, n) <= |text| && SpansFrom(text, open, close, Behind(close, spans, n)) == spans[n..]
    decreases |spans| - n
  {
    hide SpansFrom;
    if n < |spans| {
      ReadsToTheEnd(text, open, close, spans, n + 1);
      assert ReadsOn(text, open, close, spans, n) && spans[n..] == [spans[n]] + spans[n + 1..];
    }
  }

  lemma ElementReadsOn(text: string, open: string, close: string, spans: seq<Span>, n: nat)
    requires open != "" && close != "" && open[0] == '<' && close[0] == '<' && n < |spans|
    requires ElementAt(text, open, close, Behind(close, spans, n), spans[n])
    ensures ReadsOn(text, open, close, spans, n)
  {
    FirstElement(text, open, close, Behind(close, spans, n), spans[n]);
  }

  lemma EndIsRead(text: string, open: string, close: string, spans: seq<Span>)
    requires open != "" && close != "" && open[0] == '<' && Elements(text, open, close, spans)
    ensures var i := Behind(close, spans, |spans|); i <= |text| && SpansFrom(text, open, close, i) == []
  {
    assert |spans| > 0 ==> ElementAt(text, open, close, Behind(close, spans, |spans| - 1), spans[|spans| - 1]);
    NothingRead(text, open, close, Behind(close, spans, |spans|));
  }

  /** Reading finds every element, in order, and nothing else. */
  lemma ElementsRead(text: string, open: string, close: string, spans: seq<Span>)
    requires open != "" && close != "" && open[0] == '<' && close[0] == '<' && Elements(text, open, close, spans)
    ensures SpansFrom(text, open, close, 0) == spans
  {
    forall n | 0 <= n < |spans| ensures ReadsOn(text, open, close, spans, n) {
      ElementReadsOn(text, open, close, spans, n);
    }
    EndIsRead(text, open, close, spans);
    ReadsToTheEnd(text, open, close, spans, 0);
  }

  // ---------------------------------------------------------------- listing and choosing

  /** The numbers between the dots; zero where there is none. */
  function VersionKey(s: string): seq<nat>
    decreases |s|
  {
    var n := Cut(s, '.');
    [ParseU32(s[..n])] + if n < |s| then VersionKey(s[n + 1..]) else []
  }

  /** Number by number; a list that ends first comes first. */
  function CompareKeys(a: seq<nat>, b: seq<nat>): int {
    if a == [] || b == [] then |a| - |b|
    else if a[0] != b[0] then a[0] - b[0]
    else CompareKeys(a[1..], b[1..])
  }

  function KeyOrder(): (seq<nat>, seq<nat>) -> int { (a: seq<nat>, b: seq<nat>) => CompareKeys(a, b) }

  function KeyOf(): string -> seq<nat> { (s: string) => VersionKey(s) }

  function OldestFirst(): (string, string) -> int { By(KeyOf(), KeyOrder()) }

  function NewestFirst(): (string, string) -> int { Reversed(OldestFirst()) }

  lemma {:induction false} KeysTotal(a: seq<nat>, b: seq<nat>)
    ensures CompareKeys(a, b) > 0 <==> CompareKeys(b, a) < 0
  {
    if a != [] && b != [] && a[0] == b[0] {
      KeysTotal(a[1..], b[1..]);
    }
  }

  lemma {:induction false} KeysTransitive(a: seq<nat>, b: seq<nat>, c: seq<nat>)
    requires CompareKeys(a, b) <= 0 && CompareKeys(b, c) <= 0
    ensures CompareKeys(a, c) <= 0
  {
    if a != [] && b != [] && c != [] && a[0] == b[0] == c[0] {
      KeysTransitive(a[1..], b[1..], c[1..]);
    }
  }

  lemma OrdersAreConsistent()
    ensures Consistent(NewestFirst()) && Consistent(OldestFirst())
  {
    forall a, b, c
      ensures CompareKeys(a, b) > 0 ==> CompareKeys(b, a) <= 0
      ensures CompareKeys(a, b) <= 0 && CompareKeys(b, c) <= 0 ==> CompareKeys(a, c) <= 0
    {
      KeysTotal(a, b);
      if CompareKeys(a, b) <= 0 && CompareKeys(b, c) <= 0 {
        KeysTransitive(a, b, c);
      }
    }
    assert Consistent(KeyOrder());
    ByIsConsistent(KeyOf(), KeyOrder());
    ReversedIsConsistent(OldestFirst());
  }

  /** The versions to choose from are listed newest first. */
  lemma ListedNewestFirst(builds: seq<string>)
    ensures Ordered(ListVersions(builds), NewestFirst())
  {
    hide Consistent, NewestFirst, Sort, Dedup, VersionsOf;
    OrdersAreConsistent();
    SortOrders(VersionsOf(builds), NewestFirst());
    DedupOrdered(Sort(VersionsOf(builds), NewestFirst()), NewestFirst());
  }

  function VersionsOf(builds: seq<string>): (r: seq<string>)
    ensures |r| == |builds|
  {
    seq(|builds|, i requires 0 <= i < |builds| => MinecraftVersion(builds[i]))
  }

  /** All versions in the order in which they are listed, before neighbours are merged. */
  function SortedVersions(builds: seq<string>): seq<string> { Sort(VersionsOf(builds), NewestFirst()) }

  function ListVersions(builds: seq<string>): seq<string> {
    Upto(Dedup(SortedVersions(builds)), LISTED)
  }

  /** Every version on the list is the version of some build. */
  lemma ListedIsMapped(builds: seq<string>, i: nat)
    requires i < |ListVersions(builds)|
    ensures exists j | 0 <= j < |builds| :: MinecraftVersion(builds[j]) == ListVersions(builds)[i]
  {
    var version, mapped := ListVersions(builds)[i], VersionsOf(builds);
    DedupHolds(Sort(mapped, NewestFirst()));
    SortHas(mapped, NewestFirst(), version);
    var j :| 0 <= j < |mapped| && mapped[j] == version;
  }

  predicate Candidate(build: string, version: string) { StartsWith(build, Prefix(version)) }

  function IsCandidate(version: string): string -> bool { (build: string) => Candidate(build, version) }

  /** The newest of the candidates, the last one among equals. */
  method SelectBuild(builds: seq<string>, version: string) returns (best: Option<string>)
    ensures best.None? <==> forall i | 0 <= i < |builds| :: !Candidate(builds[i], version)
    ensures best.Some? ==> LastGreatest(builds, IsCandidate(version), OldestFirst(), best.value)
  {
    OrdersAreConsistent();
    best := MaxBy(builds, IsCandidate(version), OldestFirst());
    assert forall i | 0 <= i < |builds| :: IsCandidate(version)(builds[i]) <==> Candidate(builds[i], version);
  }

  /** The candidates for a listed version are exactly the full builds that are for it. */
  lemma CandidatesExactly(builds: seq<string>, i: nat, build: string)
    requires i < |ListVersions(builds)|
    ensures Candidate(build, ListVersions(builds)[i]) <==>
      Full(Base(build)) && MinecraftVersion(build) == ListVersions(builds)[i]
  {
    ListedIsMapped(builds, i);
    var j :| 0 <= j < |builds| && MinecraftVersion(builds[j]) == ListVersions(builds)[i];
    FoundExactly(build, builds[j]);
  }

  /** A listed version has a candidate exactly when some full build is for it. */
  lemma ListedIsFoundExactly(builds: seq<string>, i: nat)
    requires i < |ListVersions(builds)|
    ensures (exists j | 0 <= j < |builds| :: Candidate(builds[j], ListVersions(builds)[i])) <==>
      exists j | 0 <= j < |builds| :: Serves(builds[j], ListVersions(builds)[i])
  {
    forall j | 0 <= j < |builds|
      ensures Candidate(builds[j], ListVersions(builds)[i]) <==> Serves(builds[j], ListVersions(builds)[i])
    {
      CandidatesExactly(builds, i, builds[j]);
    }
  }

  predicate Serves(build: string, version: string) { Full(Base(build)) && MinecraftVersion(build) == version }

  // ---------------------------------------------------------------- when the list repeats a version

  function Numbers(build: string): seq<nat> { VersionKey(MinecraftVersion(build)) }

  /** Two builds are for one version, and one between them for another with the same numbers. */
  predicate ComesBetween(builds: seq<string>, i: nat, j: nat, k: nat) {
    && i < j < k < |builds|
    && MinecraftVersion(builds[i]) == MinecraftVersion(builds[k]) != MinecraftVersion(builds[j])
    && Numbers(builds[j]) == Numbers(builds[k])
  }

  /** An earlier build is for the same version, and all between them with these numbers are too. */
  predicate SharesEntry(builds: seq<string>, i: nat)
    requires i < |builds|
  {
    exists j | 0 <= j < i ::
      && MinecraftVersion(builds[j]) == MinecraftVersion(builds[i])
      && forall l | j < l < i && Numbers(builds[l]) == Numbers(builds[i]) ::
           MinecraftVersion(builds[l]) == MinecraftVersion(builds[i])
  }

  /** The version of build i is listed further up: it is newer, or has the same numbers and comes first. */
  predicate ListedBefore(builds: seq<string>, i: nat, k: nat)
    requires i < |builds| && k < |builds|
  {
    CompareKeys(Numbers(builds[k]), Numbers(builds[i])) < 0 || (Numbers(builds[i]) == Numbers(builds[k]) && i < k)
  }

  /** How far down the list the k-th build's version stands: one entry for each build down to it that shares none. */
  ghost function ListPlace(builds: seq<string>, k: nat): nat
    requires k < |builds|
  {
    |set i: nat | i < |builds| && !SharesEntry(builds, i) && (i == k || ListedBefore(builds, i, k))|
  }

  ghost function EntriesOf(builds: seq<string>): nat {
    |set i: nat | i < |builds| && !SharesEntry(builds, i)|
  }

  /** What the comparison says about two versions. */
  lemma TiedNumbers(x: string, y: string)
    ensures Tied(NewestFirst(), x, y) <==> VersionKey(x) == VersionKey(y)
    ensures NewestFirst()(y, x) > 0 <==> CompareKeys(VersionKey(y), VersionKey(x)) < 0
  {
    KeysTotal(VersionKey(x), VersionKey(y));
    KeysTotal(VersionKey(y), VersionKey(x));
    KeysTotal(VersionKey(x), VersionKey(x));
    if Tied(NewestFirst(), x, y) {
      KeysEqual(VersionKey(x), VersionKey(y));
    }
  }

  lemma SharesIsContinues(builds: seq<string>, i: nat)
    requires i < |builds|
    ensures SharesEntry(builds, i) <==> Continues(VersionsOf(builds), NewestFirst(), i)
  {
    hide MinecraftVersion, VersionKey, CompareKeys, NewestFirst, Tied;
    var s := VersionsOf(builds);
    forall l | 0 <= l < i
      ensures Tied(NewestFirst(), s[l], s[i]) <==> Numbers(builds[l]) == Numbers(builds[i])
    {
      TiedNumbers(s[l], s[i]);
    }
    if SharesEntry(builds, i) {
      var j :| 0 <= j < i && MinecraftVersion(builds[j]) == MinecraftVersion(builds[i])
        && forall l | j < l < i && Numbers(builds[l]) == Numbers(builds[i]) ::
             MinecraftVersion(builds[l]) == MinecraftVersion(builds[i]);
      assert s[j] == s[i];
    }
    if Continues(s, NewestFirst(), i) {
      var j :| 0 <= j < i && s[j] == s[i]
        && forall l | j < l < i && Tied(NewestFirst(), s[l], s[i]) :: s[l] == s[i];
      forall l | j < l < i && Numbers(builds[l]) == Numbers(builds[i])
        ensures MinecraftVersion(builds[l]) == MinecraftVersion(builds[i])
      {
        assert s[l] == s[i];
      }
      assert MinecraftVersion(builds[j]) == MinecraftVersion(builds[i]);
    }
  }

  lemma ListedIsPrecedes(builds: seq<string>, i: nat, k: nat)
    requires i < |builds| && k < |builds|
    ensures ListedBefore(builds, i, k) <==> Precedes(VersionsOf(builds), NewestFirst(), i, k)
  {
    hide MinecraftVersion, VersionKey, CompareKeys, NewestFirst;
    var s := VersionsOf(builds);
    TiedNumbers(s[i], s[k]);
    TiedNumbers(s[k], s[i]);
    OrdersAreConsistent();
  }

  lemma PlacesAgree(builds: seq<string>)
    ensures EntriesOf(builds) == Entries(VersionsOf(builds), NewestFirst())
    ensures forall k | 0 <= k < |builds| :: ListPlace(builds, k) == Place(VersionsOf(builds), NewestFirst(), k)
  {
    hide SharesEntry, Continues, ListedBefore, Precedes, NewestFirst, VersionsOf;
    var s := VersionsOf(builds);
    forall i: nat | i < |builds| ensures SharesEntry(builds, i) <==> Continues(s, NewestFirst(), i) {
      SharesIsContinues(builds, i);
    }
    assert (set i: nat | i < |builds| && !SharesEntry(builds, i))
        == (set i: nat | i < |s| && !Continues(s, NewestFirst(), i));
    forall k | 0 <= k < |builds| ensures ListPlace(builds, k) == Place(s, NewestFirst(), k) {
      forall i: nat | i < |builds| ensures ListedBefore(builds, i, k) <==> Precedes(s, NewestFirst(), i, k) {
        ListedIsPrecedes(builds, i, k);
      }
      assert (set i: nat | i < |builds| && !SharesEntry(builds, i) && (i == k || ListedBefore(builds, i, k)))
          == (set i: nat | i < |s| && !Continues(s, NewestFirst(), i)
                && (i == k || Precedes(s, NewestFirst(), i, k)));
    }
  }

  lemma BetweenIsInterrupted(builds: seq<string>, i: nat, j: nat, k: nat)
    ensures ComesBetween(builds, i, j, k) <==> Interrupted(VersionsOf(builds), NewestFirst(), i, j, k)
  {
    hide MinecraftVersion, VersionKey, CompareKeys, NewestFirst, Tied;
    if i < j < k < |builds| {
      TiedNumbers(VersionsOf(builds)[j], VersionsOf(builds)[k]);
    }
  }

  /**
   The list names a version twice if and only if two builds of it have one of
   another version with the same numbers between them, and the second stands on
   one of the places that are listed.
   */
  lemma RepeatsExactly(builds: seq<string>)
    ensures !Distinct(ListVersions(builds)) <==>
      exists i: nat, j: nat, k: nat :: ComesBetween(builds, i, j, k) && ListPlace(builds, k) <= LISTED
  {
    hide Distinct, Numbers, MinecraftVersion, Tied, NewestFirst, Place, ListPlace, Dedup, Sort;
    var s := VersionsOf(builds);
    OrdersAreConsistent();
    PlacesAgree(builds);
    if !Distinct(ListVersions(builds)) {
      var i, j, k := RepetitionWasInterrupted(s, NewestFirst(), LISTED);
      BetweenIsInterrupted(builds, i, j, k);
      assert ComesBetween(builds, i, j, k) && ListPlace(builds, k) <= LISTED;
    }
    if i: nat, j: nat, k: nat :| ComesBetween(builds, i, j, k) && ListPlace(builds, k) <= LISTED {
      BetweenIsInterrupted(builds, i, j, k);
      InterruptedRepeats(s, NewestFirst(), LISTED, i, j, k);
    }
  }

  /** The list has as many entries as builds that share none, at most forty, and no build stands further down. */
  lemma ListLength(builds: seq<string>)
    ensures |ListVersions(builds)| == if EntriesOf(builds) <= LISTED then EntriesOf(builds) else LISTED
    ensures EntriesOf(builds) <= |builds| && forall k | 0 <= k < |builds| :: ListPlace(builds, k) <= EntriesOf(builds)
  {
    hide EntriesOf, Entries, ListPlace, Place, VersionsOf, NewestFirst, Dedup, Sort;
    OrdersAreConsistent();
    PlacesAgree(builds);
    MergedLength(VersionsOf(builds), NewestFirst());
  }

  /** A list that is not cut off repeats a version exactly where one comes between. */
  lemma WholeListRepeatsExactly(builds: seq<string>)
    requires EntriesOf(builds) <= LISTED
    ensures !Distinct(ListVersions(builds)) <==> exists i: nat, j: nat, k: nat :: ComesBetween(builds, i, j, k)
  {
    hide Distinct, ListVersions, ListPlace, EntriesOf, Numbers, MinecraftVersion;
    RepeatsExactly(builds);
    ListLength(builds);
    if i: nat, j: nat, k: nat :| ComesBetween(builds, i, j, k) {
      assert ListPlace(builds, k) <= LISTED;
    }
  }

  /** A repetition takes two versions that differ although their numbers agree. */
  lemma RepeatsNeedEqualKeys(builds: seq<string>)
    requires forall x, y | x in VersionsOf(builds) && y in VersionsOf(builds) && VersionKey(x) == VersionKey(y) ::
               x == y
    ensures Distinct(ListVersions(builds))
  {
    hide Distinct, ListVersions, ListPlace, MinecraftVersion, VersionKey;
    RepeatsExactly(builds);
    forall i: nat, j: nat, k: nat ensures !ComesBetween(builds, i, j, k) {
      assert i < j < k < |builds| ==>
        VersionsOf(builds)[j] in VersionsOf(builds) && VersionsOf(builds)[k] in VersionsOf(builds);
    }
  }

  /** Keys that are not ordered either way are the same. */
  lemma {:induction false} KeysEqual(a: seq<nat>, b: seq<nat>)
    requires CompareKeys(a, b) <= 0 && CompareKeys(b, a) <= 0
    ensures a == b
  {
    if a != [] && b != [] {
      KeysEqual(a[1..], b[1..]);
      assert a == [a[0]] + a[1..] && b == [b[0]] + b[1..];
    }
  }

  lemma KeyOfLast(a: string)
    requires '.' !in a
    ensures VersionKey(a) == [ParseU32(a)]
  {
    hide ParseU32;
    CutExactly(a, '.');
    assert a[..|a|] == a;
  }

  lemma KeyOfFirst(a: string, rest: string)
    requires '.' !in a
    ensures VersionKey(a + "." + rest) == [ParseU32(a)] + VersionKey(rest)
  {
    hide ParseU32, Cut;
    var s := a + "." + rest;
    CutIs(s, '.', |a|);
    assert s[..|a|] == a && s[|a| + 1..] == rest;
  }

  /** The key of three parts without dots. */
  lemma KeyOfThree(a: string, b: string, c: string)
    requires Plain(a) && Plain(b) && Plain(c)
    ensures VersionKey(a + "." + b + "." + c) == [ParseU32(a), ParseU32(b), ParseU32(c)]
  {
    hide ParseU32, VersionKey;
    KeyOfFirst(a, b + "." + c);
    KeyOfFirst(b, c);
    KeyOfLast(c);
    assert a + "." + b + "." + c == a + "." + (b + "." + c);
  }

  lemma VersionOfThree(major: string, minor: string, patch: string)
    requires Plain(major) && Plain(minor) && ParseU32(major) < NEW_SCHEME
    ensures MinecraftVersion(major + "." + minor + "." + patch) == "1" + "." + major + "." + minor
  {
    hide ParseU32;
    var build, prefix := major + "." + minor + "." + patch, major + "." + minor + ".";
    assert build[..|prefix|] == prefix;
    PrefixGivesParts(build, major, minor);
  }

  /** Two builds of one version around one of another with the same numbers: the list names the version twice. */
  lemma SameNumbersRepeat(major: string, minor: string, other: string)
    requires Plain(major) && Plain(minor) && Plain(other) && ParseU32(major) < NEW_SCHEME
    requires ParseU32(minor) == ParseU32(other) && minor != other
    ensures !Distinct(ListVersions([major + "." + minor + "." + "1", major + "." + other + "." + "1",
                                    major + "." + minor + "." + "2"]))
  {
    hide ParseU32, VersionKey, MinecraftVersion, ListVersions, EntriesOf;
    var builds := [major + "." + minor + "." + "1", major + "." + other + "." + "1", major + "." + minor + "." + "2"];
    var v, w := "1" + "." + major + "." + minor, "1" + "." + major + "." + other;
    VersionOfThree(major, minor, "1");
    VersionOfThree(major, other, "1");
    VersionOfThree(major, minor, "2");
    KeyOfThree("1", major, minor);
    KeyOfThree("1", major, other);
    assert v[|major| + 3..] == minor && w[|major| + 3..] == other;
    assert ComesBetween(builds, 0, 1, 2);
    ListLength(builds);
    WholeListRepeatsExactly(builds);
  }

  lemma DigitsOfSample()
    ensures ParseU32("21") < NEW_SCHEME && ParseU32("x") == ParseU32("0")
  {
    assert Digits("21", 0) == Some(0) && Digits("21", 1) == Some(2) && Digits("21", 2) == Some(21);
    assert Digits("x", 1) == None;
    assert Digits("0", 0) == Some(0) && Digits("0", 1) == Some(0);
  }

  /** For instance "1.21.x" around "1.21.0". */
  lemma SampleRepeats()
    ensures !Distinct(ListVersions(["21" + "." + "x" + "." + "1", "21" + "." + "0" + "." + "1",
                                    "21" + "." + "x" + "." + "2"]))
  {
    hide ParseU32, ListVersions;
    DigitsOfSample();
    SameNumbersRepeat("21", "x", "0");
  }

  /** A list of one build with two components offers a version that no build can be found for. */
  lemma ShortBuildIsLost(build: string)
    requires !Full(Base(build))
    ensures ListVersions([build]) == [MinecraftVersion(build)] && !Candidate(build, MinecraftVersion(build))
  {
    FindsItselfExactly(build);
    var mapped := VersionsOf([build]);
    assert mapped == [MinecraftVersion(build)] && mapped[..0] == [];
    assert Sort(mapped, NewestFirst()) == mapped;
  }
}
