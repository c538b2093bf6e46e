/**
 Why a change is reported, said of the fields of the packages: which kinds and
 reasons a pair has, which risks an added package brings, and that these are the
 entries of the comparison's lists.
 */
module SupplyChainReasons {
  import opened Options
  import opened Sequences
  import opened SupplyChainDiff
  import opened SupplyChainCompare

  /** The second class of licenses is the riskier one. */
  predicate Riskier(a: LicenseClass, b: LicenseClass) {
    (a == Permissive && (b == Reciprocal || b == Unknown)) || (a == Reciprocal && b == Unknown)
  }

  /** Does the pair give this reason? */
  predicate Due(x: Package, y: Package, r: Reason) {
    match r
    case VersionChanged => x.version != y.version
    case LicenseClassChanged => x.licenseClass != y.licenseClass
    case LicenseExpressionChanged => x.licenseClass == y.licenseClass && x.license != y.license
    case LicenseRiskIncreased => Riskier(x.licenseClass, y.licenseClass)
    case LicenseRiskDecreased => Riskier(y.licenseClass, x.licenseClass)
    case IntegrityMissing => x.integrityPresent && !y.integrityPresent
    case IntegrityRestored => y.integrityPresent && !x.integrityPresent
    case AdvisoriesIncreased => |x.advisoryIds| < |y.advisoryIds|
    case AdvisoriesDecreased => |y.advisoryIds| < |x.advisoryIds|
    case _ => false
  }

  /** Which list a pair's reason belongs to. */
  function ListOf(r: Reason): ChangeKind {
    match r
    case VersionChanged => Updated
    case LicenseClassChanged | LicenseExpressionChanged => License
    case LicenseRiskIncreased | IntegrityMissing | AdvisoriesIncreased => Regression
    case LicenseRiskDecreased | IntegrityRestored | AdvisoriesDecreased => Improvement
    case PackageAdded => Added
    case PackageRemoved => Removed
    case NewLicenseRisk | NewIntegrityGap | NewAffectedPackage => Regression
  }

  /** The place of a reason among those of one entry. */
  function Rank(r: Reason): nat {
    match r
    case IntegrityMissing | IntegrityRestored | NewIntegrityGap => 1
    case AdvisoriesIncreased | AdvisoriesDecreased | NewAffectedPackage => 2
    case _ => 0
  }

  /** License first, then integrity, then advisories, each once. */
  predicate InOrder(rs: seq<Reason>) { forall i, j | 0 <= i < j < |rs| :: Rank(rs[i]) < Rank(rs[j]) }

  /** An entry that a pair reports: its own names, versions and classes, and exactly the reasons that are due. */
  predicate OfPair(x: Package, y: Package, e: Entry) {
    && e.ecosystem == y.ecosystem && e.name == y.name
    && e.beforeVersion == x.version && e.afterVersion == y.version
    && e.beforeClass == Some(x.licenseClass) && e.afterClass == Some(y.licenseClass)
    && e.reasons != [] && InOrder(e.reasons)
    && forall r :: r in e.reasons <==> Due(x, y, r) && ListOf(r) == e.kind
  }

  lemma LastIsGreatest(s: seq<Reason>, k: nat)
    requires InOrder(s) && k < |s|
    ensures s[k] == s[|s| - 1] || Rank(s[k]) < Rank(s[|s| - 1])
  {
  }

  /** Reasons in order are determined by which they are. */
  lemma {:induction false} OneOrder(a: seq<Reason>, b: seq<Reason>)
    requires InOrder(a) && InOrder(b) && forall r :: r in a <==> r in b
    ensures a == b
  {
    assert (a != [] ==> a[0] in a) && (b != [] ==> b[0] in b);
    if a != [] && b != [] {
      var i, j := |a| - 1, |b| - 1;
      assert a[i] in b && b[j] in a;
      assert a[i] == b[j] by {
        var k :| 0 <= k < |b| && b[k] == a[i];
        var l :| 0 <= l < |a| && a[l] == b[j];
        LastIsGreatest(b, k);
        LastIsGreatest(a, l);
      }
      forall r ensures r in a[..i] <==> r in b[..j] {
        WithoutLast(a, r);
        WithoutLast(b, r);
      }
      OneOrder(a[..i], b[..j]);
    }
  }

  lemma WithoutLast(a: seq<Reason>, r: Reason)
    requires a != [] && InOrder(a)
    ensures r in a[..|a| - 1] <==> r in a && r != a[|a| - 1]
  {
    assert a == a[..|a| - 1] + [a[|a| - 1]];
    if r in a[..|a| - 1] {
      var k :| 0 <= k < |a| - 1 && a[k] == r;
      assert Rank(a[k]) < Rank(a[|a| - 1]);
    }
  }

  lemma RegressionsMean(x: Package, y: Package)
    ensures InOrder(Regressions(x, y))
    ensures forall r :: r in Regressions(x, y) <==> Due(x, y, r) && ListOf(r) == Regression
  {
  }

  lemma ImprovementsInOrder(x: Package, y: Package)
    ensures InOrder(Improvements(x, y))
  {
  }

  lemma ImprovementsMean(x: Package, y: Package)
    ensures InOrder(Improvements(x, y))
    ensures forall r :: r in Improvements(x, y) <==> Due(x, y, r) && ListOf(r) == Improvement
  {
    ImprovementsInOrder(x, y);
    hide InOrder, Rank;
    forall r ensures r in Improvements(x, y) <==> Due(x, y, r) && ListOf(r) == Improvement {
    }
  }

  lemma RegressionReported(x: Package, y: Package, e: Entry)
    ensures e in RegressionEntry(x, y) <==> e.kind == Regression && OfPair(x, y, e)
  {
    hide Due, ListOf, Regressions, Rank;
    RegressionsMean(x, y);
    if e.kind == Regression && OfPair(x, y, e) {
      OneOrder(e.reasons, Regressions(x, y));
    }
  }

  lemma ImprovementReported(x: Package, y: Package, e: Entry)
    ensures e in ImprovementEntry(x, y) <==> e.kind == Improvement && OfPair(x, y, e)
  {
    hide Due, ListOf, Improvements, Rank;
    ImprovementsMean(x, y);
    if e.kind == Improvement && OfPair(x, y, e) {
      OneOrder(e.reasons, Improvements(x, y));
    }
  }

  lemma VersionReported(x: Package, y: Package, e: Entry)
    ensures e in VersionEntry(x, y) <==> e.kind == Updated && OfPair(x, y, e)
  {
    if e.kind == Updated && OfPair(x, y, e) {
      assert Due(x, y, e.reasons[0]) && ListOf(e.reasons[0]) == Updated;
      OneOrder(e.reasons, [VersionChanged]);
    }
  }

  lemma LicenseReported(x: Package, y: Package, e: Entry)
    ensures e in LicenseEntry(x, y) <==> e.kind == License && OfPair(x, y, e)
  {
    if e.kind == License && OfPair(x, y, e) {
      assert Due(x, y, e.reasons[0]) && ListOf(e.reasons[0]) == License;
      OneOrder(e.reasons, [if x.licenseClass != y.licenseClass then LicenseClassChanged else LicenseExpressionChanged]);
    }
  }

  lemma KindsOfPairs(x: Package, y: Package, e: Entry)
    requires OfPair(x, y, e)
    ensures e.kind in {Updated, License, Regression, Improvement}
  {
    assert e.reasons[0] in e.reasons;
    assert Due(x, y, e.reasons[0]) && ListOf(e.reasons[0]) == e.kind;
  }

  /** A pair reports exactly the entries that its fields call for. */
  lemma PairReports(x: Package, y: Package, e: Entry)
    ensures e in PairChanges(x, y) <==> OfPair(x, y, e)
  {
    hide OfPair, VersionEntry, LicenseEntry, RegressionEntry, ImprovementEntry;
    VersionReported(x, y, e);
    LicenseReported(x, y, e);
    RegressionReported(x, y, e);
    ImprovementReported(x, y, e);
    if OfPair(x, y, e) {
      KindsOfPairs(x, y, e);
    }
  }

  /** And no kind of entry twice. */
  lemma PairReportsOnce(x: Package, y: Package)
    ensures var pair := PairChanges(x, y);
      forall i, j | 0 <= i < j < |pair| :: pair[i].kind != pair[j].kind
  {
    hide Regressions, Improvements, EntryOf;
    EntriesHaveKinds(x, y);
  }

  lemma EntriesHaveKinds(x: Package, y: Package)
    ensures forall rs :: EntryOf(Updated, Some(x), Some(y), rs).kind == Updated
    ensures forall rs :: EntryOf(License, Some(x), Some(y), rs).kind == License
    ensures forall rs :: EntryOf(Regression, Some(x), Some(y), rs).kind == Regression
    ensures forall rs :: EntryOf(Improvement, Some(x), Some(y), rs).kind == Improvement
  {
  }

  // ---------------------------------------------------------------- what is added or removed

  /** The risks of a new package. */
  predicate Brings(y: Package, r: Reason) {
    match r
    case NewLicenseRisk => y.licenseClass == Reciprocal || y.licenseClass == Unknown
    case NewIntegrityGap => !y.integrityPresent
    case NewAffectedPackage => |y.advisoryIds| > 0
    case _ => false
  }

  /** An entry for a new package: that it was added, or the risks it brings. */
  predicate OfNew(y: Package, e: Entry) {
    && e.ecosystem == y.ecosystem && e.name == y.name && e.beforeVersion == "" && e.afterVersion == y.version
    && e.beforeClass == None && e.afterClass == Some(y.licenseClass)
    && ((e.kind == Added && e.reasons == [PackageAdded])
        || (e.kind == Regression && e.reasons != [] && InOrder(e.reasons)
            && forall r :: r in e.reasons <==> Brings(y, r)))
  }

  predicate OfOld(x: Package, e: Entry) {
    && e.ecosystem == x.ecosystem && e.name == x.name && e.beforeVersion == x.version && e.afterVersion == ""
    && e.beforeClass == Some(x.licenseClass) && e.afterClass == None
    && e.kind == Removed && e.reasons == [PackageRemoved]
  }

  lemma RisksMean(y: Package)
    ensures InOrder(Risks(y)) && forall r :: r in Risks(y) <==> Brings(y, r)
  {
  }

  lemma NewReports(y: Package, e: Entry)
    ensures e in AddedEntries(y) <==> OfNew(y, e)
  {
    hide Brings, Risks, Rank;
    RisksMean(y);
    if e.kind == Regression && OfNew(y, e) {
      OneOrder(e.reasons, Risks(y));
    }
  }

  lemma OldReports(x: Package, e: Entry)
    ensures e == RemovedEntry(x) <==> OfOld(x, e)
  {
  }

  // ---------------------------------------------------------------- the whole comparison

  lemma {:induction false} ConcatHas<T>(s: seq<T>, g: T -> seq<Entry>, e: Entry)
    ensures e in Concat(s, g) <==> exists i | 0 <= i < |s| :: e in g(s[i])
  {
    if s != [] {
      var init, last := s[..|s| - 1], s[|s| - 1];
      ConcatHas(init, g, e);
      if e in Concat(init, g) {
        var i :| 0 <= i < |init| && e in g(init[i]);
        assert s[i] == init[i];
      }
      if exists i | 0 <= i < |s| :: e in g(s[i]) {
        var i :| 0 <= i < |s| && e in g(s[i]);
        assert i < |init| ==> init[i] == s[i];
      }
    }
  }

  /** The entry has its reason in packages of the two snapshots. */
  predicate Explained(b: seq<Package>, c: seq<Package>, e: Entry) {
    || (exists i, j | 0 <= i < |b| && 0 <= j < |c| ::
          b[i].ecosystem == c[j].ecosystem && b[i].name == c[j].name && OfPair(b[i], c[j], e))
    || (exists i | 0 <= i < |b| :: OfOld(b[i], e))
    || (exists j | 0 <= j < |c| :: OfNew(c[j], e))
  }

  lemma ExplainedByPair(b: seq<Package>, c: seq<Package>, x: Package, y: Package, e: Entry)
    requires x in b && y in c && LineageKey(x) == LineageKey(y) && OfPair(x, y, e)
    ensures Explained(b, c, e)
  {
    LineageKeyIsExact(x, y);
    var i :| 0 <= i < |b| && b[i] == x;
    var j :| 0 <= j < |c| && c[j] == y;
    hide OfPair;
    assert b[i].ecosystem == c[j].ecosystem && b[i].name == c[j].name && OfPair(b[i], c[j], e);
  }

  lemma ZipReports(before: seq<Package>, after: seq<Package>, n: nat, e: Entry) returns (i: nat)
    requires n <= |before| && n <= |after| && e in Concat(Zip(before, after, n), SupplyChainDiff.OfPair())
    ensures i < n && OfPair(before[i], after[i], e)
  {
    hide OfPair, Concat;
    ConcatHas(Zip(before, after, n), SupplyChainDiff.OfPair(), e);
    i :| 0 <= i < n && e in SupplyChainDiff.OfPair()(Zip(before, after, n)[i]);
    PairReports(before[i], after[i], e);
  }

  lemma RemovedReports(s: seq<Package>, e: Entry) returns (i: nat)
    requires e in Concat(s, OfRemoved())
    ensures i < |s| && OfOld(s[i], e)
  {
    hide OfOld, Concat;
    ConcatHas(s, OfRemoved(), e);
    i :| 0 <= i < |s| && e in OfRemoved()(s[i]);
    OldReports(s[i], e);
  }

  lemma AddedReports(s: seq<Package>, e: Entry) returns (i: nat)
    requires e in Concat(s, OfAdded())
    ensures i < |s| && OfNew(s[i], e)
  {
    hide OfNew, Concat;
    ConcatHas(s, OfAdded(), e);
    i :| 0 <= i < |s| && e in OfAdded()(s[i]);
    NewReports(s[i], e);
  }

  lemma LineageExplained(b: seq<Package>, c: seq<Package>, before: seq<Package>, after: seq<Package>, lineage: string,
                         e: Entry)
    requires e in LineageChanges(before, after) && AllOf(before, lineage) && AllOf(after, lineage)
    requires (forall i | 0 <= i < |before| :: before[i] in b) && forall i | 0 <= i < |after| :: after[i] in c
    ensures Explained(b, c, e)
  {
    hide OfPair, OfNew, OfOld, Explained, LineageKey, Concat;
    var n := Min(|before|, |after|);
    if e in Concat(Zip(before, after, n), SupplyChainDiff.OfPair()) {
      var i := ZipReports(before, after, n, e);
      ExplainedByPair(b, c, before[i], after[i], e);
    } else if e in Concat(before[n..], OfRemoved()) {
      var i := RemovedReports(before[n..], e);
      ExplainedByOld(b, c, before[n + i], e);
    } else {
      var i := AddedReports(after[n..], e);
      ExplainedByNew(b, c, after[n + i], e);
    }
  }

  lemma ExplainedByOld(b: seq<Package>, c: seq<Package>, x: Package, e: Entry)
    requires x in b && OfOld(x, e)
    ensures Explained(b, c, e)
  {
    hide OfOld;
    var i :| 0 <= i < |b| && b[i] == x;
    assert OfOld(b[i], e);
  }

  lemma ExplainedByNew(b: seq<Package>, c: seq<Package>, y: Package, e: Entry)
    requires y in c && OfNew(y, e)
    ensures Explained(b, c, e)
  {
    hide OfNew;
    var j :| 0 <= j < |c| && c[j] == y;
    assert OfNew(c[j], e);
  }

  lemma {:induction false} UnmatchedAreIn(s: seq<Package>, matched: set<string>)
    ensures forall i | 0 <= i < |Unmatched(s, matched)| :: Unmatched(s, matched)[i] in s
  {
    if s != [] {
      UnmatchedAreIn(s[..|s| - 1], matched);
    }
  }

  lemma {:induction false} LatestIsIn(s: seq<Package>, key: string)
    requires Latest(s, key).Some?
    ensures Latest(s, key).value in s && PackageKey(Latest(s, key).value) == key
  {
    if PackageKey(s[|s| - 1]) != key {
      LatestIsIn(s[..|s| - 1], key);
    }
  }

  /** Every reported change has its reason in the fields of packages of the two snapshots. */
  lemma ChangesAreExplained(order: Collation, b: seq<Package>, c: seq<Package>, e: Entry)
    requires ValidPackages(b) && ValidPackages(c) && e in Changes(order, b, c)
    ensures Explained(b, c, e)
  {
    hide Explained, PairChanges, LineageChanges, Line, Latest;
    var ub, uc := Unmatched(b, Matched(b, c)), Unmatched(c, Matched(b, c));
    ConcatHas(Unique(Keys(b)), OfKey(b, c), e);
    ConcatHas(Lineages(ub, uc), OfLine(order, ub, uc), e);
    if e in ExactChanges(b, c) {
      var i :| 0 <= i < |Unique(Keys(b))| && e in OfKey(b, c)(Unique(Keys(b))[i]);
      KeyExplained(b, c, Unique(Keys(b))[i], e);
    } else {
      var i :| 0 <= i < |Lineages(ub, uc)| && e in OfLine(order, ub, uc)(Lineages(ub, uc)[i]);
      var lineage := Lineages(ub, uc)[i];
      LineHolds(order, ub, lineage);
      LineHolds(order, uc, lineage);
      UnmatchedAreIn(b, Matched(b, c));
      UnmatchedAreIn(c, Matched(b, c));
      LineageExplained(b, c, Line(order, ub, lineage), Line(order, uc, lineage), lineage, e);
    }
  }

  lemma KeyExplained(b: seq<Package>, c: seq<Package>, key: string, e: Entry)
    requires ValidPackages(b) && ValidPackages(c) && e in KeyChanges(b, c, key)
    ensures Explained(b, c, e)
  {
    hide Explained, PairChanges, OfPair;
    var x, y := Latest(b, key).value, Latest(c, key).value;
    LatestIsIn(b, key);
    LatestIsIn(c, key);
    PackageKeyIsExact(x, y);
    PairReports(x, y, e);
    ExplainedByPair(b, c, x, y, e);
  }

  lemma KeyIsReported(order: Collation, b: seq<Package>, c: seq<Package>, key: string, e: Entry)
    requires key in Keys(b) && e in KeyChanges(b, c, key)
    ensures e in Changes(order, b, c)
  {
    hide KeyChanges, Keys, Unmatched, Matched, LeftoverChanges;
    UniqueHas(Keys(b), key);
    var n :| 0 <= n < |Unique(Keys(b))| && Unique(Keys(b))[n] == key;
    ConcatHas(Unique(Keys(b)), OfKey(b, c), e);
  }

  /** Two packages with one key that no later package repeats are compared, and all that is due is reported. */
  lemma MatchIsReported(order: Collation, b: seq<Package>, c: seq<Package>, i: nat, j: nat, e: Entry)
    requires i < |b| && j < |c| && PackageKey(b[i]) == PackageKey(c[j]) && OfPair(b[i], c[j], e)
    requires forall k | i < k < |b| :: PackageKey(b[k]) != PackageKey(b[i])
    requires forall k | j < k < |c| :: PackageKey(c[k]) != PackageKey(c[j])
    ensures e in Changes(order, b, c)
  {
    hide PairChanges, OfPair, PackageKey, Changes, Latest;
    LatestAt(b, i);
    LatestAt(c, j);
    PairReports(b[i], c[j], e);
    assert Keys(b)[i] == PackageKey(b[i]);
    KeyIsReported(order, b, c, PackageKey(b[i]), e);
  }

  lemma {:induction false} LatestAt(s: seq<Package>, i: nat)
    requires i < |s| && forall k | i < k < |s| :: PackageKey(s[k]) != PackageKey(s[i])
    ensures Latest(s, PackageKey(s[i])) == Some(s[i])
  {
    hide PackageKey;
    if i < |s| - 1 {
      LatestAt(s[..|s| - 1], i);
    }
  }

  // ---------------------------------------------------------------- what counts as unchanged

  /** The same package with the same license, integrity and advisories. */
  predicate Twins(x: Package, y: Package) {
    && x.ecosystem == y.ecosystem && x.name == y.name && x.version == y.version
    && x.license == y.license && x.licenseClass == y.licenseClass && x.integrityPresent == y.integrityPresent
    && x.advisoryIds == y.advisoryIds
  }

  function HasTwin(c: seq<Package>): Package -> nat { (x: Package) => if exists y <- c :: Twins(x, y) then 1 else 0 }

  lemma TwinsAreSame(x: Package, y: Package)
    requires ValidPackage(x) && ValidPackage(y)
    ensures Twins(x, y) <==> PackageKey(x) == PackageKey(y) && Same(x, y)
  {
    if PackageKey(x) == PackageKey(y) {
      PackageKeyIsExact(x, y);
      LineageKeyIsExact(x, y);
      UnchangedIsSilent(x, y);
    }
  }

  lemma TwinIsLatest(b: seq<Package>, c: seq<Package>, i: nat)
    requires ValidPackages(b) && ValidPackages(c) && Distinct(Keys(b)) && Distinct(Keys(c)) && i < |b|
    ensures Indicator(b, c)(PackageKey(b[i])) == HasTwin(c)(b[i])
  {
    hide Twins, PackageKey, Same, Latest, ValidPackage;
    var key := PackageKey(b[i]);
    forall k | i < k < |b| ensures PackageKey(b[k]) != key {
      assert Keys(b)[k] != Keys(b)[i];
    }
    LatestAt(b, i);
    LatestHas(c, key);
    forall j | 0 <= j < |c| ensures Twins(b[i], c[j]) <==> PackageKey(c[j]) == key && Same(b[i], c[j]) {
      TwinsAreSame(b[i], c[j]);
    }
    if j :| 0 <= j < |c| && PackageKey(c[j]) == key {
      forall k | j < k < |c| ensures PackageKey(c[k]) != PackageKey(c[j]) {
        assert Keys(c)[k] != Keys(c)[j];
      }
      LatestAt(c, j);
      forall k | 0 <= k < |c| && k != j ensures PackageKey(c[k]) != key {
        assert Keys(c)[k] != Keys(c)[j];
      }
      assert HasTwin(c)(b[i]) == 1 <==> Twins(b[i], c[j]);
    } else {
      assert key !in Keys(c);
    }
  }

  /** Without repeated keys the unchanged count is the number of baseline packages that have a twin. */
  lemma UnchangedCounts(b: seq<Package>, c: seq<Package>)
    requires ValidPackages(b) && ValidPackages(c) && Distinct(Keys(b)) && Distinct(Keys(c))
    ensures Unchanged(b, c) == Sum(b, HasTwin(c))
  {
    hide Unique, Indicator, HasTwin, ValidPackages, Distinct, Sum, Keys;
    UniqueOfDistinct(Keys(b));
    CountedSame(b, c, |b|);
    assert b[..|b|] == b && Keys(b)[..|Keys(b)|] == Keys(b);
  }

  lemma {:induction false} CountedSame(b: seq<Package>, c: seq<Package>, n: nat)
    requires ValidPackages(b) && ValidPackages(c) && Distinct(Keys(b)) && Distinct(Keys(c)) && n <= |b|
    ensures Sum(Keys(b)[..n], Indicator(b, c)) == Sum(b[..n], HasTwin(c))
  {
    hide Indicator, HasTwin, ValidPackages, Distinct;
    if n > 0 {
      CountedSame(b, c, n - 1);
      TwinIsLatest(b, c, n - 1);
      assert Keys(b)[..n][..n - 1] == Keys(b)[..n - 1] && b[..n][..n - 1] == b[..n - 1];
    }
  }

  lemma {:induction false} OfKindHas(log: seq<Entry>, kind: ChangeKind, e: Entry)
    ensures e in OfKind(log, kind) <==> e in log && e.kind == kind
  {
    if log != [] {
      OfKindHas(log[..|log| - 1], kind, e);
      assert log == log[..|log| - 1] + [log[|log| - 1]];
    }
  }

  /** Each list of the result holds the changes of its kind: all of them explained, and no other. */
  lemma ListsMean(order: Collation, b: seq<Package>, c: seq<Package>, kind: ChangeKind, e: Entry)
    requires ValidPackages(b) && ValidPackages(c)
    ensures e in Sort(OfKind(Changes(order, b, c), kind), EntryOrder(order)) <==>
      e in Changes(order, b, c) && e.kind == kind
    ensures e in Changes(order, b, c) ==> Explained(b, c, e)
  {
    hide Changes, Explained;
    SortHas(OfKind(Changes(order, b, c), kind), EntryOrder(order), e);
    OfKindHas(Changes(order, b, c), kind, e);
    if e in Changes(order, b, c) {
      ChangesAreExplained(order, b, c, e);
    }
  }

  // ---------------------------------------------------------------- snapshots of one package

  lemma OneOf<T>(x: T)
    ensures [x][..|[x]| - 1] == [] && [x][|[x]| - 1] == x
  {
  }

  lemma UniqueOfOne(key: string)
    ensures Unique([key]) == [key]
  {
    OneOf(key);
  }

  lemma ConcatOfOne<T, U>(x: T, g: T -> seq<U>)
    ensures Concat([x], g) == g(x)
  {
    OneOf(x);
    assert Concat<T, U>([], g) + g(x) == g(x);
  }

  lemma OneKey(x: Package)
    ensures Keys([x]) == [PackageKey(x)]
  {
    hide PackageKey;
    assert Keys([x])[0] == PackageKey(x);
  }

  lemma OneUnmatched(x: Package, matched: set<string>)
    ensures Unmatched([x], matched) == if PackageKey(x) in matched then [] else [x]
  {
    hide PackageKey;
    OneOf(x);
    assert Unmatched([x], matched) == Unmatched([], matched) + When(PackageKey(x) !in matched, x);
  }

  lemma OneLatest(x: Package, key: string)
    ensures Latest([x], key) == if PackageKey(x) == key then Some(x) else None
  {
    hide PackageKey;
    OneOf(x);
  }

  lemma OneMatched(x: Package, y: Package)
    ensures Keys([x]) == [PackageKey(x)]
    ensures Matched([x], [y]) == if PackageKey(x) == PackageKey(y) then {PackageKey(x)} else {}
    ensures forall matched :: Unmatched([x], matched) == if PackageKey(x) in matched then [] else [x]
    ensures Latest([x], PackageKey(x)) == Some(x)
    ensures PackageKey(x) != PackageKey(y) ==> Latest([x], PackageKey(y)) == None
  {
    hide PackageKey, Unmatched, Latest, Keys;
    OneKey(x);
    OneKey(y);
    OneLatest(x, PackageKey(x));
    OneLatest(x, PackageKey(y));
    forall matched ensures Unmatched([x], matched) == if PackageKey(x) in matched then [] else [x] {
      OneUnmatched(x, matched);
    }
    assert forall key :: key in Matched([x], [y]) <==> key == PackageKey(x) == PackageKey(y);
  }

  lemma OneExact(x: Package, y: Package)
    ensures ExactChanges([x], [y]) == if PackageKey(x) == PackageKey(y) then PairChanges(x, y) else []
  {
    hide PackageKey, PairChanges, Latest, Keys;
    OneMatched(x, y);
    OneMatched(y, x);
    UniqueOfOne(PackageKey(x));
    ConcatOfOne(PackageKey(x), OfKey([x], [y]));
  }

  lemma NoLeftovers(order: Collation)
    ensures LeftoverChanges(order, [], []) == []
  {
    assert LineageKeys([]) + LineageKeys([]) == [];
  }

  /** Two snapshots of one package each, the same but for its other fields: exactly what is due is reported. */
  lemma OnePackageCompared(order: Collation, x: Package, y: Package, e: Entry)
    requires x.ecosystem == y.ecosystem && x.name == y.name && x.version == y.version
    ensures e in Changes(order, [x], [y]) <==> OfPair(x, y, e)
  {
    PairReports(x, y, e);
    assert PackageKey(x) == PackageKey(y);
    hide PackageKey, PairChanges, ExactChanges, LeftoverChanges, OfPair;
    OneMatched(x, y);
    OneMatched(y, x);
    OneExact(x, y);
    NoLeftovers(order);
  }

  lemma OneLine(order: Collation, x: Package, lineage: string)
    ensures Line(order, [x], lineage) == if LineageKey(x) == lineage then [x] else []
  {
    hide LineageKey, PackageOrder;
    OneOf(x);
    assert OfLineage([x], lineage) == OfLineage([], lineage) + When(LineageKey(x) == lineage, x);
    assert Sort([x], PackageOrder(order)) == Insert(Sort([], PackageOrder(order)), x, PackageOrder(order)) == [x];
  }

  lemma OnePair(x: Package, y: Package)
    ensures LineageChanges([x], [y]) == PairChanges(x, y)
  {
    hide PairChanges;
    var zip := Zip([x], [y], 1);
    assert zip == [(x, y)];
    ConcatOfOne((x, y), SupplyChainDiff.OfPair());
    assert [x][1..] == [] && [y][1..] == [];
  }

  /** The same with another version: the two are paired, and the update is among what is reported. */
  lemma OnePackageUpdated(order: Collation, x: Package, y: Package, e: Entry)
    requires ValidPackage(x) && ValidPackage(y) && x.ecosystem == y.ecosystem && x.name == y.name
    requires x.version != y.version
    ensures e in Changes(order, [x], [y]) <==> OfPair(x, y, e)
  {
    PairReports(x, y, e);
    if PackageKey(x) == PackageKey(y) {
      PackageKeyIsExact(x, y);
    }
    assert LineageKey(x) == LineageKey(y);
    hide PackageKey, LineageKey, PairChanges, ExactChanges, OfPair, LineageChanges, Line, ValidPackage;
    OneMatched(x, y);
    OneMatched(y, x);
    OneExact(x, y);
    OneLine(order, x, LineageKey(x));
    OneLine(order, y, LineageKey(x));
    OnePair(x, y);
    LineagesOfTwo(x, y);
    ConcatOfOne(LineageKey(x), OfLine(order, [x], [y]));
  }

  lemma LineagesOfTwo(x: Package, y: Package)
    requires LineageKey(x) == LineageKey(y)
    ensures Lineages([x], [y]) == [LineageKey(x)]
  {
    var key := LineageKey(x);
    hide LineageKey;
    assert LineageKeys([x]) + LineageKeys([y]) == [key, key];
    assert [key, key][..1] == [key];
    UniqueOfOne(key);
  }

  // ---------------------------------------------------------------- the order

  /** A comparison of strings as collations give it. */
  ghost predicate Collates(order: Collation) {
    && (forall a, b :: order(a, b) < 0 <==> order(b, a) > 0)
    && forall a, b, c :: order(a, b) <= 0 && order(b, c) <= 0 ==> order(a, c) <= 0
  }

  /** First by one text, then by the rest. */
  lemma OrIsTransitive(order: Collation, a: string, b: string, c: string, u: int, v: int, w: int)
    requires Collates(order) && (u <= 0 && v <= 0 ==> w <= 0)
    ensures Or(order(a, b), u) <= 0 && Or(order(b, c), v) <= 0 ==> Or(order(a, c), w) <= 0
  {
    if order(a, b) <= 0 && order(b, c) <= 0 && order(a, c) == 0 {
      assert order(c, a) <= 0;
      assert order(b, a) <= 0 && order(c, b) <= 0;
    }
  }

  lemma OrIsTotal(order: Collation, a: string, b: string, u: int, v: int)
    requires Collates(order) && (u > 0 ==> v <= 0)
    ensures Or(order(a, b), u) > 0 ==> Or(order(b, a), v) <= 0
  {
    assert order(a, b) == 0 ==> order(b, a) == 0;
  }

  lemma PackagesCollate(order: Collation)
    requires Collates(order)
    ensures Consistent(PackageOrder(order))
  {
    var compare := PackageOrder(order);
    forall x, y, z ensures compare(x, y) <= 0 && compare(y, z) <= 0 ==> compare(x, z) <= 0 {
      var (a, b, c) := (EcosystemName(x.ecosystem), EcosystemName(y.ecosystem), EcosystemName(z.ecosystem));
      hide Or, Collates, EcosystemName;
      OrUnfolds(order, x.version, y.version, z.version);
      OrIsTransitive(order, x.name, y.name, z.name, order(x.version, y.version), order(y.version, z.version),
                     order(x.version, z.version));
      OrIsTransitive(order, a, b, c, Or(order(x.name, y.name), order(x.version, y.version)),
                     Or(order(y.name, z.name), order(y.version, z.version)),
                     Or(order(x.name, z.name), order(x.version, z.version)));
    }
    forall x, y ensures compare(x, y) > 0 ==> compare(y, x) <= 0 {
      hide Or, Collates, EcosystemName;
      OrUnfolds(order, x.version, y.version, x.version);
      OrIsTotal(order, x.name, y.name, order(x.version, y.version), order(y.version, x.version));
      OrIsTotal(order, EcosystemName(x.ecosystem), EcosystemName(y.ecosystem),
                Or(order(x.name, y.name), order(x.version, y.version)),
                Or(order(y.name, x.name), order(y.version, x.version)));
    }
  }

  lemma OrUnfolds(order: Collation, a: string, b: string, c: string)
    requires Collates(order)
    ensures order(a, b) <= 0 && order(b, c) <= 0 ==> order(a, c) <= 0
    ensures order(a, b) > 0 ==> order(b, a) <= 0
    ensures order(a, a) == 0
  {
  }

  /** Within a lineage the packages are paired from the lowest version on. */
  lemma PairedByVersion(order: Collation, s: seq<Package>, lineage: string, i: nat, j: nat)
    requires Collates(order) && i < j < |Line(order, s, lineage)|
    ensures order(Line(order, s, lineage)[i].version, Line(order, s, lineage)[j].version) <= 0
  {
    hide LineageKey, Consistent;
    var line := Line(order, s, lineage);
    PackagesCollate(order);
    SortOrders(OfLineage(s, lineage), PackageOrder(order));
    LineHolds(order, s, lineage);
    assert LineageKey(line[i]) == lineage && LineageKey(line[j]) == lineage;
    LineageKeyIsExact(line[i], line[j]);
    assert PackageOrder(order)(line[i], line[j]) <= 0;
    OrUnfolds(order, line[i].name, line[i].name, line[i].name);
    OrUnfolds(order, EcosystemName(line[i].ecosystem), EcosystemName(line[i].ecosystem), "");
  }

  /** By ecosystem, then by name, then by the version before and the version after. */
  predicate ListedBefore(order: Collation, e: Entry, f: Entry) {
    var m, n := if e.ecosystem.Npm? then "npm" else "cargo", if f.ecosystem.Npm? then "npm" else "cargo";
    || order(m, n) < 0
    || (order(m, n) == 0
        && (order(e.name, f.name) < 0
            || (order(e.name, f.name) == 0
                && (order(e.beforeVersion, f.beforeVersion) < 0
                    || (order(e.beforeVersion, f.beforeVersion) == 0
                        && order(e.afterVersion, f.afterVersion) <= 0)))))
  }

  lemma EntriesCollate(order: Collation)
    requires Collates(order)
    ensures Consistent(EntryOrder(order))
  {
    var compare := EntryOrder(order);
    forall x, y, z ensures compare(x, y) <= 0 && compare(y, z) <= 0 ==> compare(x, z) <= 0 {
      hide Or, Collates, EcosystemName;
      OrUnfolds(order, x.afterVersion, y.afterVersion, z.afterVersion);
      var (u, v, w) := (order(x.afterVersion, y.afterVersion), order(y.afterVersion, z.afterVersion),
                        order(x.afterVersion, z.afterVersion));
      OrIsTransitive(order, x.beforeVersion, y.beforeVersion, z.beforeVersion, u, v, w);
      var (p, q, r) := (Or(order(x.beforeVersion, y.beforeVersion), u), Or(order(y.beforeVersion, z.beforeVersion), v),
                        Or(order(x.beforeVersion, z.beforeVersion), w));
      OrIsTransitive(order, x.name, y.name, z.name, p, q, r);
      OrIsTransitive(order, EcosystemName(x.ecosystem), EcosystemName(y.ecosystem), EcosystemName(z.ecosystem),
                     Or(order(x.name, y.name), p), Or(order(y.name, z.name), q), Or(order(x.name, z.name), r));
    }
    forall x, y ensures compare(x, y) > 0 ==> compare(y, x) <= 0 {
      hide Or, Collates, EcosystemName;
      OrUnfolds(order, x.afterVersion, y.afterVersion, x.afterVersion);
      var (u, v) := (order(x.afterVersion, y.afterVersion), order(y.afterVersion, x.afterVersion));
      OrIsTotal(order, x.beforeVersion, y.beforeVersion, u, v);
      var (p, q) := (Or(order(x.beforeVersion, y.beforeVersion), u), Or(order(y.beforeVersion, x.beforeVersion), v));
      OrIsTotal(order, x.name, y.name, p, q);
      OrIsTotal(order, EcosystemName(x.ecosystem), EcosystemName(y.ecosystem),
                Or(order(x.name, y.name), p), Or(order(y.name, x.name), q));
    }
  }

  /** Each list of the result is in this order. */
  lemma ListsAreSorted(order: Collation, changes: seq<Entry>, kind: ChangeKind, i: nat, j: nat)
    requires Collates(order) && i < j < |Sort(OfKind(changes, kind), EntryOrder(order))|
    ensures var list := Sort(OfKind(changes, kind), EntryOrder(order)); ListedBefore(order, list[i], list[j])
  {
    EntriesCollate(order);
    hide Consistent, Collates;
    SortOrders(OfKind(changes, kind), EntryOrder(order));
    var list := Sort(OfKind(changes, kind), EntryOrder(order));
    assert EntryOrder(order)(list[i], list[j]) <= 0;
  }

  // ---------------------------------------------------------------- which snapshots are compared

  /** Sixty-four digits of hexadecimal. */
  predicate HexDigest(s: string) {
    |s| == 64 && forall i | 0 <= i < |s| :: s[i] in "0123456789abcdefABCDEF"
  }

  predicate Text(s: string, least: nat) { least <= |s| <= 512 && '\0' !in s }

  predicate GoodPackage(p: Package) {
    && Text(p.name, 1) && Text(p.version, 1) && Text(p.license, 0)
    && |p.componentIds| <= 64 && (forall i | 0 <= i < |p.componentIds| :: Text(p.componentIds[i], 1))
    && |p.advisoryIds| <= 64 && (forall i | 0 <= i < |p.advisoryIds| :: Text(p.advisoryIds[i], 1))
  }

  lemma HexIs(c: char)
    ensures IsHex(c) <==> c in "0123456789abcdefABCDEF"
  {
    if '0' <= c <= '9' {
      assert "0123456789abcdefABCDEF"[c as int - '0' as int] == c;
    } else if 'a' <= c <= 'f' {
      assert "0123456789abcdefABCDEF"[10 + (c as int - 'a' as int)] == c;
    } else if 'A' <= c <= 'F' {
      assert "0123456789abcdefABCDEF"[16 + (c as int - 'A' as int)] == c;
    }
  }

  lemma DigestMeans(s: string)
    ensures IsDigest(s) <==> HexDigest(s)
  {
    forall i | 0 <= i < |s| ensures IsHex(s[i]) <==> s[i] in "0123456789abcdefABCDEF" {
      HexIs(s[i]);
    }
  }

  lemma PackageMeans(p: Package)
    ensures ValidPackage(p) <==> GoodPackage(p)
  {
  }

  /** A snapshot is compared if its date, digests, texts and numbers are within bounds, and its count is right. */
  lemma SnapshotMeans(s: Snapshot, now: int)
    ensures IsSnapshot(s, now) <==>
      && s.createdAt.Some? && s.createdAt.value <= now + 300000
      && HexDigest(s.inventoryDigest) && (s.advisoryRequestDigest == "" || HexDigest(s.advisoryRequestDigest))
      && |s.packages| <= 10000 && (forall i | 0 <= i < |s.packages| :: GoodPackage(s.packages[i]))
      && s.summary.packages == |s.packages|
      && s.summary.direct <= 10000 && s.summary.development <= 10000 && s.summary.unknownLicense <= 10000
      && s.summary.reciprocalLicense <= 10000 && s.summary.missingIntegrity <= 10000
      && s.summary.affectedPackages <= 10000
  {
    DigestMeans(s.inventoryDigest);
    DigestMeans(s.advisoryRequestDigest);
    hide IsDigest, HexDigest, ValidPackage, GoodPackage;
    forall i | 0 <= i < |s.packages| ensures ValidPackage(s.packages[i]) <==> GoodPackage(s.packages[i]) {
      PackageMeans(s.packages[i]);
    }
  }
}
