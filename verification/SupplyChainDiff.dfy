/**
 Comparing two dependency snapshots: packages that are in both are matched by
 key, and what is left is paired by position within each lineage.
 */
module SupplyChainDiff {
  import opened Options
  import opened Sequences

  const NUL: char := '\0'
  const MAX_PACKAGES: nat := 10000
  const MAX_TEXT: nat := 512
  const MAX_IDS: nat := 64
  const HEX_DIGITS: nat := 64
  /** How far ahead a date may lie, in milliseconds. */
  const CLOCK_SKEW: int := 300000

  datatype Ecosystem = Npm | Cargo
  datatype LicenseClass = Permissive | Reciprocal | Unknown

  datatype Package = Package(
    ecosystem: Ecosystem, name: string, version: string, license: string, licenseClass: LicenseClass,
    direct: bool, development: bool, integrityPresent: bool, componentIds: seq<string>, advisoryIds: seq<string>)

  datatype ChangeKind = Added | Removed | Updated | License | Regression | Improvement

  datatype Reason =
    | VersionChanged | LicenseClassChanged | LicenseExpressionChanged
    | LicenseRiskIncreased | LicenseRiskDecreased | IntegrityMissing | IntegrityRestored
    | AdvisoriesIncreased | AdvisoriesDecreased
    | PackageRemoved | PackageAdded | NewLicenseRisk | NewIntegrityGap | NewAffectedPackage

  datatype Entry = Entry(
    kind: ChangeKind, ecosystem: Ecosystem, name: string, beforeVersion: string, afterVersion: string,
    beforeClass: Option<LicenseClass>, afterClass: Option<LicenseClass>, reasons: seq<Reason>)

  function EcosystemName(e: Ecosystem): string { if e.Npm? then "npm" else "cargo" }

  function Lineage(e: Ecosystem, name: string): string { EcosystemName(e) + [NUL] + name }

  function LineageKey(p: Package): string { Lineage(p.ecosystem, p.name) }

  function PackageKey(p: Package): string { LineageKey(p) + [NUL] + p.version }

  // ---------------------------------------------------------------- valid packages

  predicate ShortText(s: string, allowEmpty: bool) { |s| <= MAX_TEXT && (allowEmpty || s != "") && NUL !in s }

  predicate ValidPackage(p: Package) {
    && ShortText(p.name, false) && ShortText(p.version, false) && ShortText(p.license, true)
    && |p.componentIds| <= MAX_IDS && (forall i | 0 <= i < |p.componentIds| :: ShortText(p.componentIds[i], false))
    && |p.advisoryIds| <= MAX_IDS && (forall i | 0 <= i < |p.advisoryIds| :: ShortText(p.advisoryIds[i], false))
  }

  predicate ValidPackages(s: seq<Package>) { |s| <= MAX_PACKAGES && forall i | 0 <= i < |s| :: ValidPackage(s[i]) }

  /** Two strings joined by a separator that the tails do not contain split in one way only. */
  lemma SplitsOnce(a: string, b: string, c: string, d: string)
    requires a + [NUL] + b == c + [NUL] + d && NUL !in b && NUL !in d
    ensures a == c && b == d
  {
    var s := a + [NUL] + b;
    assert s[|a|] == NUL && s[|c|] == NUL;
    assert forall i | |a| < i < |s| :: s[i] == b[i - |a| - 1];
    assert forall i | |c| < i < |s| :: s[i] == d[i - |c| - 1];
    assert s[..|a|] == a && s[..|c|] == c && s[|a| + 1..] == b && s[|c| + 1..] == d;
  }

  /** A lineage key says which ecosystem and which name it stands for. */
  lemma LineageKeyIsExact(x: Package, y: Package)
    requires LineageKey(x) == LineageKey(y)
    ensures x.ecosystem == y.ecosystem && x.name == y.name
  {
    assert LineageKey(x)[0] == (if x.ecosystem.Npm? then 'n' else 'c');
    assert LineageKey(y)[0] == (if y.ecosystem.Npm? then 'n' else 'c');
    var n := |EcosystemName(x.ecosystem)| + 1;
    assert LineageKey(x)[n..] == x.name && LineageKey(y)[n..] == y.name;
  }

  /** The key of a valid package says which package it is. */
  lemma PackageKeyIsExact(x: Package, y: Package)
    requires ValidPackage(x) && ValidPackage(y) && PackageKey(x) == PackageKey(y)
    ensures LineageKey(x) == LineageKey(y) && x.version == y.version
  {
    SplitsOnce(LineageKey(x), x.version, LineageKey(y), y.version);
  }

  predicate IsHex(c: char) { '0' <= c <= '9' || 'a' <= c <= 'f' || 'A' <= c <= 'F' }

  predicate IsDigest(s: string) { |s| == HEX_DIGITS && forall i | 0 <= i < |s| :: IsHex(s[i]) }

  // ---------------------------------------------------------------- one pair

  function RiskRank(c: LicenseClass): nat {
    match c case Permissive => 0 case Reciprocal => 1 case Unknown => 2
  }

  function Version(p: Option<Package>): string { if p.Some? then p.value.version else "" }

  function Class(p: Option<Package>): Option<LicenseClass> { if p.Some? then Some(p.value.licenseClass) else None }

  function EntryOf(kind: ChangeKind, before: Option<Package>, after: Option<Package>, reasons: seq<Reason>): Entry
    requires before.Some? || after.Some?
  {
    var source := if after.Some? then after.value else before.value;
    Entry(kind, source.ecosystem, source.name, Version(before), Version(after), Class(before), Class(after), reasons)
  }

  function When<T>(condition: bool, x: T): seq<T> { if condition then [x] else [] }

  function Regressions(x: Package, y: Package): seq<Reason> {
    When(RiskRank(y.licenseClass) > RiskRank(x.licenseClass), LicenseRiskIncreased)
    + When(x.integrityPresent && !y.integrityPresent, IntegrityMissing)
    + When(|y.advisoryIds| > |x.advisoryIds|, AdvisoriesIncreased)
  }

  function Improvements(x: Package, y: Package): seq<Reason> {
    When(RiskRank(y.licenseClass) < RiskRank(x.licenseClass), LicenseRiskDecreased)
    + When(!x.integrityPresent && y.integrityPresent, IntegrityRestored)
    + When(|y.advisoryIds| < |x.advisoryIds|, AdvisoriesDecreased)
  }

  function VersionEntry(x: Package, y: Package): seq<Entry> {
    When(x.version != y.version, EntryOf(Updated, Some(x), Some(y), [VersionChanged]))
  }

  function LicenseEntry(x: Package, y: Package): seq<Entry> {
    var reason := if x.licenseClass != y.licenseClass then LicenseClassChanged else LicenseExpressionChanged;
    When(x.licenseClass != y.licenseClass || x.license != y.license, EntryOf(License, Some(x), Some(y), [reason]))
  }

  function RegressionEntry(x: Package, y: Package): seq<Entry> {
    When(Regressions(x, y) != [], EntryOf(Regression, Some(x), Some(y), Regressions(x, y)))
  }

  function ImprovementEntry(x: Package, y: Package): seq<Entry> {
    When(Improvements(x, y) != [], EntryOf(Improvement, Some(x), Some(y), Improvements(x, y)))
  }

  /** What a pair reports. */
  function PairChanges(x: Package, y: Package): seq<Entry> {
    VersionEntry(x, y) + LicenseEntry(x, y) + RegressionEntry(x, y) + ImprovementEntry(x, y)
  }

  /** The pair counts as unchanged. */
  predicate Same(x: Package, y: Package) {
    x.license == y.license && x.licenseClass == y.licenseClass && x.integrityPresent == y.integrityPresent
    && Join(x.advisoryIds) == Join(y.advisoryIds)
  }

  function Join(ids: seq<string>): string {
    if ids == [] then "" else if |ids| == 1 then ids[0] else Join(ids[..|ids| - 1]) + [NUL] + ids[|ids| - 1]
  }

  // ---------------------------------------------------------------- what is left of a lineage

  function Risks(y: Package): seq<Reason> {
    When(y.licenseClass != Permissive, NewLicenseRisk) + When(!y.integrityPresent, NewIntegrityGap)
    + When(y.advisoryIds != [], NewAffectedPackage)
  }

  function RemovedEntry(x: Package): Entry { EntryOf(Removed, Some(x), None, [PackageRemoved]) }

  function AddedEntry(y: Package): Entry { EntryOf(Added, None, Some(y), [PackageAdded]) }

  function AddedEntries(y: Package): seq<Entry> {
    [AddedEntry(y)] + When(Risks(y) != [], EntryOf(Regression, None, Some(y), Risks(y)))
  }

  function Zip(before: seq<Package>, after: seq<Package>, n: nat): (r: seq<(Package, Package)>)
    requires n <= |before| && n <= |after|
    ensures |r| == n
  {
    seq(n, i requires 0 <= i < n => (before[i], after[i]))
  }

  function OfPair(): ((Package, Package)) -> seq<Entry> { (p: (Package, Package)) => PairChanges(p.0, p.1) }

  function OfRemoved(): Package -> seq<Entry> { (x: Package) => [RemovedEntry(x)] }

  function OfAdded(): Package -> seq<Entry> { (y: Package) => AddedEntries(y) }

  function Min(a: nat, b: nat): nat { if a <= b then a else b }

  function LineageChanges(before: seq<Package>, after: seq<Package>): seq<Entry> {
    var pairs := Min(|before|, |after|);
    Concat(Zip(before, after, pairs), OfPair()) + Concat(before[pairs..], OfRemoved())
    + Concat(after[pairs..], OfAdded())
  }

  // ---------------------------------------------------------------- the whole comparison

  function Keys(s: seq<Package>): (r: seq<string>)
    ensures |r| == |s|
  {
    seq(|s|, i requires 0 <= i < |s| => PackageKey(s[i]))
  }

  function LineageKeys(s: seq<Package>): (r: seq<string>)
    ensures |r| == |s|
  {
    seq(|s|, i requires 0 <= i < |s| => LineageKey(s[i]))
  }

  /** A map built from a list keeps the last entry of a key. */
  function Latest(s: seq<Package>, key: string): Option<Package> {
    if s == [] then None
    else if PackageKey(s[|s| - 1]) == key then Some(s[|s| - 1])
    else Latest(s[..|s| - 1], key)
  }

  function KeyChanges(b: seq<Package>, c: seq<Package>, key: string): seq<Entry> {
    match (Latest(b, key), Latest(c, key))
    case (Some(x), Some(y)) => PairChanges(x, y)
    case _ => []
  }

  function OfKey(b: seq<Package>, c: seq<Package>): string -> seq<Entry> { (key: string) => KeyChanges(b, c, key) }

  function ExactChanges(b: seq<Package>, c: seq<Package>): seq<Entry> { Concat(Unique(Keys(b)), OfKey(b, c)) }

  predicate SameAt(b: seq<Package>, c: seq<Package>, key: string) {
    Latest(b, key).Some? && Latest(c, key).Some? && Same(Latest(b, key).value, Latest(c, key).value)
  }

  function Indicator(b: seq<Package>, c: seq<Package>): string -> nat { key => if SameAt(b, c, key) then 1 else 0 }

  function Unchanged(b: seq<Package>, c: seq<Package>): nat { Sum(Unique(Keys(b)), Indicator(b, c)) }

  function Matched(b: seq<Package>, c: seq<Package>): set<string> { set key | key in Keys(b) && key in Keys(c) }

  function Unmatched(s: seq<Package>, matched: set<string>): seq<Package> {
    if s == [] then []
    else Unmatched(s[..|s| - 1], matched) + When(PackageKey(s[|s| - 1]) !in matched, s[|s| - 1])
  }

  function OfLineage(s: seq<Package>, lineage: string): seq<Package> {
    if s == [] then []
    else OfLineage(s[..|s| - 1], lineage) + When(LineageKey(s[|s| - 1]) == lineage, s[|s| - 1])
  }

  /** The locale's comparison of two strings. */
  type Collation = (string, string) -> int

  function Or(first: int, second: int): int { if first != 0 then first else second }

  function PackageOrder(order: Collation): (Package, Package) -> int {
    (x: Package, y: Package) =>
      Or(order(EcosystemName(x.ecosystem), EcosystemName(y.ecosystem)),
         Or(order(x.name, y.name), order(x.version, y.version)))
  }

  function EntryOrder(order: Collation): (Entry, Entry) -> int {
    (x: Entry, y: Entry) =>
      Or(order(EcosystemName(x.ecosystem), EcosystemName(y.ecosystem)),
         Or(order(x.name, y.name), Or(order(x.beforeVersion, y.beforeVersion), order(x.afterVersion, y.afterVersion))))
  }

  /** The packages of a lineage in the order in which they are paired. */
  function Line(order: Collation, s: seq<Package>, lineage: string): seq<Package> {
    Sort(OfLineage(s, lineage), PackageOrder(order))
  }

  function OfLine(order: Collation, ub: seq<Package>, uc: seq<Package>): string -> seq<Entry> {
    (lineage: string) => LineageChanges(Line(order, ub, lineage), Line(order, uc, lineage))
  }

  function Lineages(ub: seq<Package>, uc: seq<Package>): seq<string> { Unique(LineageKeys(ub) + LineageKeys(uc)) }

  function LeftoverChanges(order: Collation, ub: seq<Package>, uc: seq<Package>): seq<Entry> {
    Concat(Lineages(ub, uc), OfLine(order, ub, uc))
  }

  /** Everything the comparison reports, in the order in which it finds it. */
  function Changes(order: Collation, b: seq<Package>, c: seq<Package>): seq<Entry> {
    ExactChanges(b, c) + LeftoverChanges(order, Unmatched(b, Matched(b, c)), Unmatched(c, Matched(b, c)))
  }

  // ---------------------------------------------------------------- swapping the arguments

  type Weight = Entry -> nat

  function FlipReason(r: Reason): Reason {
    match r
    case LicenseRiskIncreased => LicenseRiskDecreased
    case LicenseRiskDecreased => LicenseRiskIncreased
    case IntegrityMissing => IntegrityRestored
    case IntegrityRestored => IntegrityMissing
    case AdvisoriesIncreased => AdvisoriesDecreased
    case AdvisoriesDecreased => AdvisoriesIncreased
    case PackageRemoved => PackageAdded
    case PackageAdded => PackageRemoved
    case _ => r
  }

  function FlipReasons(rs: seq<Reason>): (r: seq<Reason>)
    ensures |r| == |rs|
  {
    seq(|rs|, i requires 0 <= i < |rs| => FlipReason(rs[i]))
  }

  function FlipKind(k: ChangeKind): ChangeKind {
    match k
    case Added => Removed
    case Removed => Added
    case Regression => Improvement
    case Improvement => Regression
    case _ => k
  }

  /** The same change seen from the other side. */
  function Flip(e: Entry): Entry {
    Entry(FlipKind(e.kind), e.ecosystem, e.name, e.afterVersion, e.beforeVersion, e.afterClass, e.beforeClass,
          FlipReasons(e.reasons))
  }

  function Flipped(w: Weight): Weight { (e: Entry) => w(Flip(e)) }

  /** A risk that a newly added package brings; the other side has nothing of the kind. */
  predicate OneSided(e: Entry) {
    (e.kind.Regression? && e.beforeClass.None?) || (e.kind.Improvement? && e.afterClass.None?)
  }

  ghost predicate Ignores(w: Weight) { forall e :: OneSided(e) ==> w(e) == 0 }

  lemma FlipTwice(e: Entry)
    ensures Flip(Flip(e)) == e
  {
    assert FlipReasons(FlipReasons(e.reasons)) == e.reasons;
  }

  lemma SumWhen<T>(condition: bool, x: T, f: T -> nat)
    ensures Sum(When(condition, x), f) == if condition then f(x) else 0
  {
    assert [x][..0] == [];
  }

  lemma FlipAppend(a: seq<Reason>, b: seq<Reason>)
    ensures FlipReasons(a + b) == FlipReasons(a) + FlipReasons(b)
  {
  }

  lemma RisksFlip(x: Package, y: Package)
    ensures FlipReasons(Regressions(x, y)) == Improvements(y, x)
    ensures FlipReasons(Improvements(x, y)) == Regressions(y, x)
    ensures Regressions(x, y) == [] <==> Improvements(y, x) == []
    ensures Improvements(x, y) == [] <==> Regressions(y, x) == []
  {
    FlipThree(RiskRank(y.licenseClass) > RiskRank(x.licenseClass), LicenseRiskIncreased,
              x.integrityPresent && !y.integrityPresent, IntegrityMissing,
              |y.advisoryIds| > |x.advisoryIds|, AdvisoriesIncreased);
    FlipThree(RiskRank(y.licenseClass) < RiskRank(x.licenseClass), LicenseRiskDecreased,
              !x.integrityPresent && y.integrityPresent, IntegrityRestored,
              |y.advisoryIds| < |x.advisoryIds|, AdvisoriesDecreased);
  }

  lemma FlipThree(p: bool, x: Reason, q: bool, y: Reason, r: bool, z: Reason)
    ensures FlipReasons(When(p, x) + When(q, y) + When(r, z))
      == When(p, FlipReason(x)) + When(q, FlipReason(y)) + When(r, FlipReason(z))
  {
    FlipAppend(When(p, x) + When(q, y), When(r, z));
    FlipAppend(When(p, x), When(q, y));
  }

  lemma PairWeight(x: Package, y: Package, w: Weight)
    ensures Sum(PairChanges(x, y), w)
      == Sum(VersionEntry(x, y), w) + Sum(LicenseEntry(x, y), w)
         + Sum(RegressionEntry(x, y), w) + Sum(ImprovementEntry(x, y), w)
  {
    SumAppend(VersionEntry(x, y), LicenseEntry(x, y), w);
    SumAppend(VersionEntry(x, y) + LicenseEntry(x, y), RegressionEntry(x, y), w);
    SumAppend(VersionEntry(x, y) + LicenseEntry(x, y) + RegressionEntry(x, y), ImprovementEntry(x, y), w);
  }

  /** A pair reports the same from both sides. */
  lemma PairFlips(x: Package, y: Package, w: Weight)
    requires LineageKey(x) == LineageKey(y)
    ensures Sum(PairChanges(x, y), Flipped(w)) == Sum(PairChanges(y, x), w)
  {
    LineageKeyIsExact(x, y);
    PairWeight(x, y, Flipped(w));
    PairWeight(y, x, w);
    VersionFlips(x, y, w);
    RiskFlips(x, y, w);
  }

  lemma WhenFlips(condition: bool, e: Entry, w: Weight)
    ensures Sum(When(condition, e), Flipped(w)) == Sum(When(condition, Flip(e)), w)
  {
    SumWhen(condition, e, Flipped(w));
    SumWhen(condition, Flip(e), w);
  }

  lemma VersionFlips(x: Package, y: Package, w: Weight)
    requires x.ecosystem == y.ecosystem && x.name == y.name
    ensures Sum(VersionEntry(x, y), Flipped(w)) == Sum(VersionEntry(y, x), w)
    ensures Sum(LicenseEntry(x, y), Flipped(w)) == Sum(LicenseEntry(y, x), w)
  {
    var reason := if x.licenseClass != y.licenseClass then LicenseClassChanged else LicenseExpressionChanged;
    assert FlipReasons([VersionChanged]) == [VersionChanged] && FlipReasons([reason]) == [reason];
    WhenFlips(x.version != y.version, EntryOf(Updated, Some(x), Some(y), [VersionChanged]), w);
    WhenFlips(x.licenseClass != y.licenseClass || x.license != y.license,
              EntryOf(License, Some(x), Some(y), [reason]), w);
  }

  lemma RiskFlips(x: Package, y: Package, w: Weight)
    requires x.ecosystem == y.ecosystem && x.name == y.name
    ensures Sum(RegressionEntry(x, y), Flipped(w)) == Sum(ImprovementEntry(y, x), w)
    ensures Sum(ImprovementEntry(x, y), Flipped(w)) == Sum(RegressionEntry(y, x), w)
  {
    RisksFlip(x, y);
    WhenFlips(Regressions(x, y) != [], EntryOf(Regression, Some(x), Some(y), Regressions(x, y)), w);
    WhenFlips(Improvements(x, y) != [], EntryOf(Improvement, Some(x), Some(y), Improvements(x, y)), w);
  }

  predicate AllOf(s: seq<Package>, lineage: string) { forall i | 0 <= i < |s| :: LineageKey(s[i]) == lineage }

  lemma PairedFlips(before: seq<Package>, after: seq<Package>, n: nat, lineage: string, w: Weight)
    requires n <= |before| && n <= |after| && AllOf(before, lineage) && AllOf(after, lineage)
    ensures Sum(Concat(Zip(before, after, n), OfPair()), Flipped(w)) == Sum(Concat(Zip(after, before, n), OfPair()), w)
  {
    var xs, ys := Zip(before, after, n), Zip(after, before, n);
    var f, g := Weighed(OfPair(), Flipped(w)), Weighed(OfPair(), w);
    SumConcat(xs, OfPair(), Flipped(w));
    SumConcat(ys, OfPair(), w);
    forall i | 0 <= i < n ensures f(xs[i]) == g(ys[i]) {
      PairFlips(before[i], after[i], w);
    }
    SumSame(xs, f, ys, g);
  }

  lemma IgnoresFlipped(w: Weight)
    requires Ignores(w)
    ensures Ignores(Flipped(w))
  {
    forall e | OneSided(e) ensures w(Flip(e)) == 0 {
      assert OneSided(Flip(e));
    }
  }

  /** A weight that ignores one-sided risks sees only the added package itself. */
  lemma AddedWeight(y: Package, w: Weight)
    requires Ignores(w)
    ensures Sum(AddedEntries(y), w) == w(AddedEntry(y))
  {
    var risk := EntryOf(Regression, None, Some(y), Risks(y));
    SumAppend([AddedEntry(y)], When(Risks(y) != [], risk), w);
    SumOne(AddedEntry(y), w);
    SumWhen(Risks(y) != [], risk, w);
    assert OneSided(risk);
  }

  lemma LeftoverFlips(x: Package, w: Weight)
    requires Ignores(w)
    ensures Sum([RemovedEntry(x)], Flipped(w)) == Sum(AddedEntries(x), w)
    ensures Sum(AddedEntries(x), Flipped(w)) == Sum([RemovedEntry(x)], w)
  {
    assert FlipReasons([PackageRemoved]) == [PackageAdded] && FlipReasons([PackageAdded]) == [PackageRemoved];
    assert Flip(RemovedEntry(x)) == AddedEntry(x) && Flip(AddedEntry(x)) == RemovedEntry(x);
    IgnoresFlipped(w);
    AddedWeight(x, w);
    AddedWeight(x, Flipped(w));
    SumOne(RemovedEntry(x), w);
    SumOne(RemovedEntry(x), Flipped(w));
  }

  /** What one side removes the other adds. */
  lemma LeftoversFlip(s: seq<Package>, w: Weight)
    requires Ignores(w)
    ensures Sum(Concat(s, OfRemoved()), Flipped(w)) == Sum(Concat(s, OfAdded()), w)
    ensures Sum(Concat(s, OfAdded()), Flipped(w)) == Sum(Concat(s, OfRemoved()), w)
  {
    forall x
      ensures Weighed(OfRemoved(), Flipped(w))(x) == Weighed(OfAdded(), w)(x)
      ensures Weighed(OfAdded(), Flipped(w))(x) == Weighed(OfRemoved(), w)(x)
    {
      LeftoverFlips(x, w);
    }
    SumConcat(s, OfRemoved(), Flipped(w));
    SumConcat(s, OfAdded(), w);
    SumSame(s, Weighed(OfRemoved(), Flipped(w)), s, Weighed(OfAdded(), w));
    SumConcat(s, OfAdded(), Flipped(w));
    SumConcat(s, OfRemoved(), w);
    SumSame(s, Weighed(OfAdded(), Flipped(w)), s, Weighed(OfRemoved(), w));
  }

  lemma LineageWeight(before: seq<Package>, after: seq<Package>, w: Weight)
    ensures var pairs := Min(|before|, |after|);
      Sum(LineageChanges(before, after), w)
      == Sum(Concat(Zip(before, after, pairs), OfPair()), w) + Sum(Concat(before[pairs..], OfRemoved()), w)
         + Sum(Concat(after[pairs..], OfAdded()), w)
  {
    var pairs := Min(|before|, |after|);
    var paired, removed := Concat(Zip(before, after, pairs), OfPair()), Concat(before[pairs..], OfRemoved());
    SumAppend(paired, removed, w);
    SumAppend(paired + removed, Concat(after[pairs..], OfAdded()), w);
  }

  lemma LineageFlips(before: seq<Package>, after: seq<Package>, lineage: string, w: Weight)
    requires AllOf(before, lineage) && AllOf(after, lineage) && Ignores(w)
    ensures Sum(LineageChanges(before, after), Flipped(w)) == Sum(LineageChanges(after, before), w)
  {
    var pairs := Min(|before|, |after|);
    LineageWeight(before, after, Flipped(w));
    LineageWeight(after, before, w);
    PairedFlips(before, after, pairs, lineage, w);
    LeftoversFlip(before[pairs..], w);
    LeftoversFlip(after[pairs..], w);
  }

  // ---------------------------------------------------------------- keys and lineages

  lemma {:induction false} LatestHas(s: seq<Package>, key: string)
    ensures Latest(s, key).Some? <==> key in Keys(s)
    ensures Latest(s, key).Some? ==> Latest(s, key).value in s && PackageKey(Latest(s, key).value) == key
  {
    if s != [] {
      LatestHas(s[..|s| - 1], key);
      assert Keys(s) == Keys(s[..|s| - 1]) + [PackageKey(s[|s| - 1])];
      assert s == s[..|s| - 1] + [s[|s| - 1]];
    }
  }

  lemma {:induction false} OfLineageHolds(s: seq<Package>, lineage: string)
    ensures AllOf(OfLineage(s, lineage), lineage)
    ensures forall i | 0 <= i < |OfLineage(s, lineage)| :: OfLineage(s, lineage)[i] in s
  {
    if s != [] {
      OfLineageHolds(s[..|s| - 1], lineage);
      assert s == s[..|s| - 1] + [s[|s| - 1]];
    }
  }

  /** A line holds packages of its lineage, and as many as the lineage has. */
  lemma LineHolds(order: Collation, s: seq<Package>, lineage: string)
    ensures AllOf(Line(order, s, lineage), lineage) && |Line(order, s, lineage)| == |OfLineage(s, lineage)|
    ensures forall i | 0 <= i < |Line(order, s, lineage)| :: Line(order, s, lineage)[i] in s
  {
    OfLineageHolds(s, lineage);
    SortHolds(OfLineage(s, lineage), PackageOrder(order), x => LineageKey(x) == lineage && x in s);
  }

  // ---------------------------------------------------------------- symmetry

  lemma MatchedIsSymmetric(b: seq<Package>, c: seq<Package>)
    ensures Matched(b, c) == Matched(c, b)
  {
  }

  lemma KeyFlips(b: seq<Package>, c: seq<Package>, key: string, w: Weight)
    requires ValidPackages(b) && ValidPackages(c)
    ensures Sum(KeyChanges(b, c, key), Flipped(w)) == Sum(KeyChanges(c, b, key), w)
  {
    LatestHas(b, key);
    LatestHas(c, key);
    if Latest(b, key).Some? && Latest(c, key).Some? {
      var x, y := Latest(b, key).value, Latest(c, key).value;
      PackageKeyIsExact(x, y);
      PairFlips(x, y, w);
    }
  }

  lemma KeyNeedsBoth(b: seq<Package>, c: seq<Package>, key: string, w: Weight)
    ensures Sum(KeyChanges(b, c, key), w) > 0 ==> key in Unique(Keys(b)) && key in Unique(Keys(c))
  {
    LatestHas(b, key);
    LatestHas(c, key);
    UniqueHas(Keys(b), key);
    UniqueHas(Keys(c), key);
  }

  lemma ExactFlips(b: seq<Package>, c: seq<Package>, w: Weight)
    requires ValidPackages(b) && ValidPackages(c)
    ensures Sum(ExactChanges(b, c), Flipped(w)) == Sum(ExactChanges(c, b), w)
  {
    var ks, ls := Unique(Keys(b)), Unique(Keys(c));
    var f, g := Weighed(OfKey(b, c), Flipped(w)), Weighed(OfKey(c, b), w);
    SumConcat(ks, OfKey(b, c), Flipped(w));
    SumConcat(ls, OfKey(c, b), w);
    forall key ensures f(key) == g(key) && (g(key) > 0 ==> key in ks && key in ls) {
      KeyFlips(b, c, key, w);
      KeyNeedsBoth(c, b, key, w);
    }
    SumSame(ks, f, ks, g);
    UniqueIsDistinct(Keys(b));
    UniqueIsDistinct(Keys(c));
    SumOverMembers(ks, ls, g);
  }

  lemma LeftoverChangesFlip(order: Collation, ub: seq<Package>, uc: seq<Package>, w: Weight)
    requires Ignores(w)
    ensures Sum(LeftoverChanges(order, ub, uc), Flipped(w)) == Sum(LeftoverChanges(order, uc, ub), w)
  {
    var ks, ls := Lineages(ub, uc), Lineages(uc, ub);
    var f, g := Weighed(OfLine(order, ub, uc), Flipped(w)), Weighed(OfLine(order, uc, ub), w);
    SumConcat(ks, OfLine(order, ub, uc), Flipped(w));
    SumConcat(ls, OfLine(order, uc, ub), w);
    forall lineage ensures f(lineage) == g(lineage) && (lineage in ks <==> lineage in ls) {
      LineHolds(order, ub, lineage);
      LineHolds(order, uc, lineage);
      LineageFlips(Line(order, ub, lineage), Line(order, uc, lineage), lineage, w);
      UniqueHas(LineageKeys(ub) + LineageKeys(uc), lineage);
      UniqueHas(LineageKeys(uc) + LineageKeys(ub), lineage);
    }
    SumSame(ks, f, ks, g);
    UniqueIsDistinct(LineageKeys(ub) + LineageKeys(uc));
    UniqueIsDistinct(LineageKeys(uc) + LineageKeys(ub));
    SumOverMembers(ks, ls, g);
  }

  /**
   However the changes are weighed, apart from the risks that only an added
   package brings, swapping the arguments weighs the flipped changes.
   */
  lemma SwapFlips(order: Collation, b: seq<Package>, c: seq<Package>, w: Weight)
    requires ValidPackages(b) && ValidPackages(c) && Ignores(w)
    ensures Sum(Changes(order, b, c), Flipped(w)) == Sum(Changes(order, c, b), w)
  {
    MatchedIsSymmetric(b, c);
    var ub, uc := Unmatched(b, Matched(b, c)), Unmatched(c, Matched(b, c));
    ExactFlips(b, c, w);
    LeftoverChangesFlip(order, ub, uc, w);
    SumAppend(ExactChanges(b, c), LeftoverChanges(order, ub, uc), Flipped(w));
    SumAppend(ExactChanges(c, b), LeftoverChanges(order, uc, ub), w);
  }

  // ---------------------------------------------------------------- conservation

  function EntryLineage(e: Entry): string { Lineage(e.ecosystem, e.name) }

  /** Counts the entries of a kind in the chosen lineages. */
  function Counting(kind: ChangeKind, chosen: string -> bool): Weight {
    (e: Entry) => if e.kind == kind && chosen(EntryLineage(e)) then 1 else 0
  }

  function Every(): string -> bool { (lineage: string) => true }

  function Only(lineage: string): string -> bool { (other: string) => other == lineage }

  function Count(log: seq<Entry>, kind: ChangeKind): nat { Sum(log, Counting(kind, Every())) }

  function CountIn(log: seq<Entry>, kind: ChangeKind, lineage: string): nat { Sum(log, Counting(kind, Only(lineage))) }

  function If(condition: bool, n: nat): nat { if condition then n else 0 }

  predicate Moves(kind: ChangeKind) { kind.Added? || kind.Removed? || kind.Updated? }

  lemma EntryCount(
      condition: bool, x: Package, y: Package, reported: ChangeKind, reasons: seq<Reason>,
      kind: ChangeKind, chosen: string -> bool)
    ensures Sum(When(condition, EntryOf(reported, Some(x), Some(y), reasons)), Counting(kind, chosen))
      == If(condition && reported == kind && chosen(LineageKey(y)), 1)
  {
    var e := EntryOf(reported, Some(x), Some(y), reasons);
    SumWhen(condition, e, Counting(kind, chosen));
    assert EntryLineage(e) == LineageKey(y);
  }

  lemma PairCount(x: Package, y: Package, kind: ChangeKind, chosen: string -> bool)
    requires LineageKey(x) == LineageKey(y) && Moves(kind)
    ensures Sum(PairChanges(x, y), Counting(kind, chosen))
      == If(kind.Updated? && x.version != y.version && chosen(LineageKey(y)), 1)
  {
    PairWeight(x, y, Counting(kind, chosen));
    assert Sum(VersionEntry(x, y), Counting(kind, chosen))
        == If(kind.Updated? && x.version != y.version && chosen(LineageKey(y)), 1) by {
      EntryCount(x.version != y.version, x, y, Updated, [VersionChanged], kind, chosen);
    }
    assert Sum(LicenseEntry(x, y), Counting(kind, chosen)) == 0 by {
      var reason := if x.licenseClass != y.licenseClass then LicenseClassChanged else LicenseExpressionChanged;
      EntryCount(x.licenseClass != y.licenseClass || x.license != y.license, x, y, License, [reason], kind, chosen);
    }
    assert Sum(RegressionEntry(x, y), Counting(kind, chosen)) == 0 by {
      EntryCount(Regressions(x, y) != [], x, y, Regression, Regressions(x, y), kind, chosen);
    }
    assert Sum(ImprovementEntry(x, y), Counting(kind, chosen)) == 0 by {
      EntryCount(Improvements(x, y) != [], x, y, Improvement, Improvements(x, y), kind, chosen);
    }
  }

  predicate Differ(before: seq<Package>, after: seq<Package>) {
    forall i, j | 0 <= i < |before| && 0 <= j < |after| :: before[i].version != after[j].version
  }

  lemma PairedCount(
      before: seq<Package>, after: seq<Package>, n: nat, lineage: string, kind: ChangeKind, chosen: string -> bool)
    requires n <= |before| && n <= |after| && Moves(kind)
    requires AllOf(before, lineage) && AllOf(after, lineage) && Differ(before, after)
    ensures Sum(Concat(Zip(before, after, n), OfPair()), Counting(kind, chosen))
         == If(kind.Updated? && chosen(lineage), n)
  {
    var xs, f := Zip(before, after, n), Weighed(OfPair(), Counting(kind, chosen));
    SumConcat(xs, OfPair(), Counting(kind, chosen));
    forall i | 0 <= i < n ensures f(xs[i]) == If(kind.Updated? && chosen(lineage), 1) {
      PairCount(before[i], after[i], kind, chosen);
    }
    SumConstant(xs, f, If(kind.Updated? && chosen(lineage), 1));
  }

  lemma IgnoresCounting(kind: ChangeKind, chosen: string -> bool)
    requires Moves(kind)
    ensures Ignores(Counting(kind, chosen))
  {
  }

  lemma LeftoverCount(x: Package, kind: ChangeKind, chosen: string -> bool)
    requires Moves(kind)
    ensures Sum([RemovedEntry(x)], Counting(kind, chosen)) == If(kind.Removed? && chosen(LineageKey(x)), 1)
    ensures Sum(AddedEntries(x), Counting(kind, chosen)) == If(kind.Added? && chosen(LineageKey(x)), 1)
  {
    IgnoresCounting(kind, chosen);
    AddedWeight(x, Counting(kind, chosen));
    SumOne(RemovedEntry(x), Counting(kind, chosen));
    assert EntryLineage(RemovedEntry(x)) == LineageKey(x) == EntryLineage(AddedEntry(x));
  }

  lemma LeftoversCount(s: seq<Package>, lineage: string, kind: ChangeKind, chosen: string -> bool)
    requires AllOf(s, lineage) && Moves(kind)
    ensures Sum(Concat(s, OfRemoved()), Counting(kind, chosen)) == If(kind.Removed? && chosen(lineage), |s|)
    ensures Sum(Concat(s, OfAdded()), Counting(kind, chosen)) == If(kind.Added? && chosen(lineage), |s|)
  {
    var f, g := Weighed(OfRemoved(), Counting(kind, chosen)), Weighed(OfAdded(), Counting(kind, chosen));
    SumConcat(s, OfRemoved(), Counting(kind, chosen));
    SumConcat(s, OfAdded(), Counting(kind, chosen));
    forall i | 0 <= i < |s|
      ensures f(s[i]) == If(kind.Removed? && chosen(lineage), 1) && g(s[i]) == If(kind.Added? && chosen(lineage), 1)
    {
      LeftoverCount(s[i], kind, chosen);
    }
    SumConstant(s, f, If(kind.Removed? && chosen(lineage), 1));
    SumConstant(s, g, If(kind.Added? && chosen(lineage), 1));
  }

  /** How many of the kind a lineage yields that has so many packages on either side. */
  function Share(kind: ChangeKind, before: nat, after: nat): nat {
    var pairs := Min(before, after);
    if kind.Updated? then pairs else if kind.Removed? then before - pairs else after - pairs
  }

  /** What a lineage has more of on one side is removed or added; the rest is updated. */
  lemma LineageCount(
      before: seq<Package>, after: seq<Package>, lineage: string, kind: ChangeKind, chosen: string -> bool)
    requires AllOf(before, lineage) && AllOf(after, lineage) && Differ(before, after) && Moves(kind)
    ensures Sum(LineageChanges(before, after), Counting(kind, chosen))
      == If(chosen(lineage), Share(kind, |before|, |after|))
  {
    hide Concat, LineageChanges, OfPair, OfRemoved, OfAdded, Counting, Zip, LineageKey;
    var pairs := Min(|before|, |after|);
    LineageWeight(before, after, Counting(kind, chosen));
    PairedCount(before, after, pairs, lineage, kind, chosen);
    LeftoversCount(before[pairs..], lineage, kind, chosen);
    LeftoversCount(after[pairs..], lineage, kind, chosen);
  }

  lemma {:induction false} UnmatchedHolds(s: seq<Package>, matched: set<string>)
    ensures var u := Unmatched(s, matched);
      forall i | 0 <= i < |u| :: u[i] in s && PackageKey(u[i]) !in matched
  {
    if s != [] {
      var init, last := s[..|s| - 1], s[|s| - 1];
      UnmatchedHolds(init, matched);
      assert s == init + [last];
      assert Unmatched(s, matched) == Unmatched(init, matched) + When(PackageKey(last) !in matched, last);
    }
  }

  lemma KeyOf(s: seq<Package>, x: Package)
    requires x in s
    ensures PackageKey(x) in Keys(s)
  {
    var i :| 0 <= i < |s| && s[i] == x;
    assert Keys(s)[i] == PackageKey(x);
  }

  /** Two packages of one lineage that are left over on either side differ in their version. */
  lemma UnmatchedDiffer(b: seq<Package>, c: seq<Package>, x: Package, y: Package)
    requires x in b && y in c && PackageKey(x) !in Matched(b, c)
    requires LineageKey(x) == LineageKey(y)
    ensures x.version != y.version
  {
    KeyOf(b, x);
    KeyOf(c, y);
  }

  lemma LinesDiffer(order: Collation, b: seq<Package>, c: seq<Package>, lineage: string)
    ensures var ub, uc := Unmatched(b, Matched(b, c)), Unmatched(c, Matched(b, c));
      Differ(Line(order, ub, lineage), Line(order, uc, lineage))
  {
    var ub, uc := Unmatched(b, Matched(b, c)), Unmatched(c, Matched(b, c));
    var before, after := Line(order, ub, lineage), Line(order, uc, lineage);
    LineHolds(order, ub, lineage);
    LineHolds(order, uc, lineage);
    UnmatchedHolds(b, Matched(b, c));
    UnmatchedHolds(c, Matched(b, c));
    forall i, j | 0 <= i < |before| && 0 <= j < |after| ensures before[i].version != after[j].version {
      UnmatchedDiffer(b, c, before[i], after[j]);
    }
  }

  lemma LineShare(
      order: Collation, b: seq<Package>, c: seq<Package>, lineage: string, kind: ChangeKind, chosen: string -> bool)
    requires Moves(kind)
    ensures var ub, uc := Unmatched(b, Matched(b, c)), Unmatched(c, Matched(b, c));
      Weighed(OfLine(order, ub, uc), Counting(kind, chosen))(lineage)
      == If(chosen(lineage), Share(kind, |OfLineage(ub, lineage)|, |OfLineage(uc, lineage)|))
  {
    var ub, uc := Unmatched(b, Matched(b, c)), Unmatched(c, Matched(b, c));
    LineHolds(order, ub, lineage);
    LineHolds(order, uc, lineage);
    LinesDiffer(order, b, c, lineage);
    LineageCount(Line(order, ub, lineage), Line(order, uc, lineage), lineage, kind, chosen);
  }

  lemma KeyCount(b: seq<Package>, c: seq<Package>, key: string, kind: ChangeKind, chosen: string -> bool)
    requires ValidPackages(b) && ValidPackages(c) && Moves(kind)
    ensures Sum(KeyChanges(b, c, key), Counting(kind, chosen)) == 0
  {
    LatestHas(b, key);
    LatestHas(c, key);
    if Latest(b, key).Some? && Latest(c, key).Some? {
      PackageKeyIsExact(Latest(b, key).value, Latest(c, key).value);
      PairCount(Latest(b, key).value, Latest(c, key).value, kind, chosen);
    }
  }

  /** Exact matches are neither added nor removed nor updated. */
  lemma ExactCount(b: seq<Package>, c: seq<Package>, kind: ChangeKind, chosen: string -> bool)
    requires ValidPackages(b) && ValidPackages(c) && Moves(kind)
    ensures Sum(ExactChanges(b, c), Counting(kind, chosen)) == 0
  {
    var ks, f := Unique(Keys(b)), Weighed(OfKey(b, c), Counting(kind, chosen));
    SumConcat(ks, OfKey(b, c), Counting(kind, chosen));
    forall key ensures f(key) == 0 {
      KeyCount(b, c, key, kind, chosen);
    }
    SumConstant(ks, f, 0);
  }

  lemma ChangesCount(order: Collation, b: seq<Package>, c: seq<Package>, kind: ChangeKind, chosen: string -> bool)
    requires ValidPackages(b) && ValidPackages(c) && Moves(kind)
    ensures var ub, uc := Unmatched(b, Matched(b, c)), Unmatched(c, Matched(b, c));
      Sum(Changes(order, b, c), Counting(kind, chosen))
      == Sum(Lineages(ub, uc), Weighed(OfLine(order, ub, uc), Counting(kind, chosen)))
  {
    var ub, uc := Unmatched(b, Matched(b, c)), Unmatched(c, Matched(b, c));
    ExactCount(b, c, kind, chosen);
    SumConcat(Lineages(ub, uc), OfLine(order, ub, uc), Counting(kind, chosen));
    SumAppend(ExactChanges(b, c), LeftoverChanges(order, ub, uc), Counting(kind, chosen));
  }

  /**
   In every lineage the surplus of one side is added or removed and the rest is
   updated, so no lineage has packages both added and removed.
   */
  lemma LineageBalance(order: Collation, b: seq<Package>, c: seq<Package>, lineage: string)
    requires ValidPackages(b) && ValidPackages(c)
    ensures var nb := |OfLineage(Unmatched(b, Matched(b, c)), lineage)|;
      var nc := |OfLineage(Unmatched(c, Matched(b, c)), lineage)|;
      var log := Changes(order, b, c);
      && CountIn(log, Updated, lineage) == Min(nb, nc)
      && CountIn(log, Removed, lineage) == (if nb > nc then nb - nc else 0)
      && CountIn(log, Added, lineage) == (if nc > nb then nc - nb else 0)
  {
    CountInLineage(order, b, c, lineage, Updated);
    CountInLineage(order, b, c, lineage, Removed);
    CountInLineage(order, b, c, lineage, Added);
  }

  lemma CountInLineage(order: Collation, b: seq<Package>, c: seq<Package>, lineage: string, kind: ChangeKind)
    requires ValidPackages(b) && ValidPackages(c) && Moves(kind)
    ensures var ub, uc := Unmatched(b, Matched(b, c)), Unmatched(c, Matched(b, c));
      CountIn(Changes(order, b, c), kind, lineage) == Share(kind, |OfLineage(ub, lineage)|, |OfLineage(uc, lineage)|)
  {
    var ub, uc := Unmatched(b, Matched(b, c)), Unmatched(c, Matched(b, c));
    var ls, f := Lineages(ub, uc), Weighed(OfLine(order, ub, uc), Counting(kind, Only(lineage)));
    ChangesCount(order, b, c, kind, Only(lineage));
    forall other
      ensures f(other) == If(other == lineage, Share(kind, |OfLineage(ub, other)|, |OfLineage(uc, other)|))
      ensures f(other) > 0 ==> other in ls && other in [lineage]
    {
      LineShare(order, b, c, other, kind, Only(lineage));
      LineageListed(ub, uc, other);
    }
    UniqueIsDistinct(LineageKeys(ub) + LineageKeys(uc));
    SumOverMembers(ls, [lineage], f);
    SumOne(lineage, f);
  }

  /** A lineage with packages left over is among those that are compared. */
  lemma LineageListed(ub: seq<Package>, uc: seq<Package>, lineage: string)
    ensures OfLineage(ub, lineage) != [] || OfLineage(uc, lineage) != [] ==> lineage in Lineages(ub, uc)
  {
    UniqueHas(LineageKeys(ub) + LineageKeys(uc), lineage);
    OfLineageNeeds(ub, lineage);
    OfLineageNeeds(uc, lineage);
  }

  lemma OfLineageNeeds(s: seq<Package>, lineage: string)
    ensures OfLineage(s, lineage) != [] ==> lineage in LineageKeys(s)
  {
    OfLineageHolds(s, lineage);
    if OfLineage(s, lineage) != [] {
      var i :| 0 <= i < |s| && s[i] == OfLineage(s, lineage)[0];
      assert LineageKeys(s)[i] == lineage;
    }
  }

  function Size(s: seq<Package>): string -> nat { (lineage: string) => |OfLineage(s, lineage)| }

  function Is(lineage: string): string -> nat { (other: string) => if other == lineage then 1 else 0 }

  lemma {:induction false} SumPlus(ls: seq<string>, f: string -> nat, g: string -> nat, h: string -> nat)
    requires forall x :: h(x) == f(x) + g(x)
    ensures Sum(ls, h) == Sum(ls, f) + Sum(ls, g)
  {
    if ls != [] {
      SumPlus(ls[..|ls| - 1], f, g, h);
    }
  }

  /** The lineages divide the packages among them. */
  lemma {:induction false} LineagesDivide(s: seq<Package>, ls: seq<string>)
    requires Distinct(ls) && forall i | 0 <= i < |s| :: LineageKey(s[i]) in ls
    ensures Sum(ls, Size(s)) == |s|
  {
    if s == [] {
      SumConstant(ls, Size(s), 0);
    } else {
      var init, last := s[..|s| - 1], s[|s| - 1];
      LineagesDivide(init, ls);
      SumPlus(ls, Size(init), Is(LineageKey(last)), Size(s));
      SumOverMembers(ls, [LineageKey(last)], Is(LineageKey(last)));
      SumOne(LineageKey(last), Is(LineageKey(last)));
    }
  }

  lemma LeftoversListed(ub: seq<Package>, uc: seq<Package>, x: Package)
    requires x in ub || x in uc
    ensures LineageKey(x) in Lineages(ub, uc)
  {
    UniqueHas(LineageKeys(ub) + LineageKeys(uc), LineageKey(x));
    if x in ub {
      var i :| 0 <= i < |ub| && ub[i] == x;
      assert LineageKeys(ub)[i] == LineageKey(x);
    } else {
      var i :| 0 <= i < |uc| && uc[i] == x;
      assert LineageKeys(uc)[i] == LineageKey(x);
    }
  }

  /** On each lineage one side's packages are updated or of this kind. */
  lemma SharesAdd(order: Collation, b: seq<Package>, c: seq<Package>, lineage: string)
    requires ValidPackages(b) && ValidPackages(c)
    ensures var ub, uc := Unmatched(b, Matched(b, c)), Unmatched(c, Matched(b, c));
      var line := OfLine(order, ub, uc);
      && Size(ub)(lineage)
         == Weighed(line, Counting(Removed, Every()))(lineage) + Weighed(line, Counting(Updated, Every()))(lineage)
      && Size(uc)(lineage)
         == Weighed(line, Counting(Added, Every()))(lineage) + Weighed(line, Counting(Updated, Every()))(lineage)
  {
    hide Unmatched, Matched, Lineages, OfLine, Weighed, Counting, ValidPackages;
    LineShare(order, b, c, lineage, Added, Every());
    LineShare(order, b, c, lineage, Removed, Every());
    LineShare(order, b, c, lineage, Updated, Every());
  }

  /** The lineages divide the packages of a side between them. */
  lemma SidesDivide(ub: seq<Package>, uc: seq<Package>)
    ensures Sum(Lineages(ub, uc), Size(ub)) == |ub| && Sum(Lineages(ub, uc), Size(uc)) == |uc|
  {
    var ls := Lineages(ub, uc);
    UniqueIsDistinct(LineageKeys(ub) + LineageKeys(uc));
    forall x | x in ub || x in uc ensures LineageKey(x) in ls {
      LeftoversListed(ub, uc, x);
    }
    LineagesDivide(ub, ls);
    LineagesDivide(uc, ls);
  }

  /** What is left over of the baseline is removed or updated, and of the current packages added or updated. */
  lemma LeftoversAccounted(order: Collation, b: seq<Package>, c: seq<Package>)
    requires ValidPackages(b) && ValidPackages(c)
    ensures var log := Changes(order, b, c);
      && Count(log, Removed) + Count(log, Updated) == |Unmatched(b, Matched(b, c))|
      && Count(log, Added) + Count(log, Updated) == |Unmatched(c, Matched(b, c))|
  {
    hide Unmatched, Matched, Lineages, OfLine, Weighed, Size, Changes, ValidPackages;
    var ub, uc := Unmatched(b, Matched(b, c)), Unmatched(c, Matched(b, c));
    var ls := Lineages(ub, uc);
    var added := Weighed(OfLine(order, ub, uc), Counting(Added, Every()));
    var removed := Weighed(OfLine(order, ub, uc), Counting(Removed, Every()));
    var updated := Weighed(OfLine(order, ub, uc), Counting(Updated, Every()));
    ChangesCount(order, b, c, Added, Every());
    ChangesCount(order, b, c, Removed, Every());
    ChangesCount(order, b, c, Updated, Every());
    forall lineage
      ensures Size(ub)(lineage) == removed(lineage) + updated(lineage)
      ensures Size(uc)(lineage) == added(lineage) + updated(lineage)
    {
      SharesAdd(order, b, c, lineage);
    }
    SumPlus(ls, removed, updated, Size(ub));
    SumPlus(ls, added, updated, Size(uc));
    SidesDivide(ub, uc);
  }

  function KeyIn(keys: set<string>): string -> nat { (key: string) => if key in keys then 1 else 0 }

  /** How many packages of s have a key that both sides know. */
  function Shared(s: seq<Package>, matched: set<string>): nat { Sum(Keys(s), KeyIn(matched)) }

  lemma {:induction false} UnmatchedLength(s: seq<Package>, matched: set<string>)
    ensures |Unmatched(s, matched)| + Shared(s, matched) == |s|
  {
    if s != [] {
      UnmatchedLength(s[..|s| - 1], matched);
      assert Keys(s)[..|s| - 1] == Keys(s[..|s| - 1]);
    }
  }

  /** Nothing is lost: every package is matched, updated, removed or added. */
  lemma Conservation(order: Collation, b: seq<Package>, c: seq<Package>)
    requires ValidPackages(b) && ValidPackages(c)
    ensures var log := Changes(order, b, c);
      && |b| == Shared(b, Matched(b, c)) + Count(log, Removed) + Count(log, Updated)
      && |c| == Shared(c, Matched(b, c)) + Count(log, Added) + Count(log, Updated)
    ensures Distinct(Keys(b)) && Distinct(Keys(c)) ==> Shared(b, Matched(b, c)) == Shared(c, Matched(b, c))
  {
    LeftoversAccounted(order, b, c);
    UnmatchedLength(b, Matched(b, c));
    UnmatchedLength(c, Matched(b, c));
    if Distinct(Keys(b)) && Distinct(Keys(c)) {
      SumOverMembers(Keys(b), Keys(c), KeyIn(Matched(b, c)));
    }
  }

  // ---------------------------------------------------------------- the swapped counts

  function Pairwise(kind: ChangeKind): Weight {
    (e: Entry) => if e.kind == kind && e.beforeClass.Some? && e.afterClass.Some? then 1 else 0
  }

  lemma SwapCount(order: Collation, b: seq<Package>, c: seq<Package>, v: Weight, w: Weight)
    requires ValidPackages(b) && ValidPackages(c) && Ignores(w) && forall e :: v(e) == w(Flip(e))
    ensures Sum(Changes(order, b, c), v) == Sum(Changes(order, c, b), w)
  {
    SwapFlips(order, b, c, w);
    SumSame(Changes(order, b, c), v, Changes(order, b, c), Flipped(w));
  }

  /** Swapping exchanges added with removed, and keeps the numbers of updates and license changes. */
  lemma SwapExchanges(order: Collation, b: seq<Package>, c: seq<Package>, kind: ChangeKind)
    requires ValidPackages(b) && ValidPackages(c) && (Moves(kind) || kind.License?)
    ensures Count(Changes(order, b, c), kind) == Count(Changes(order, c, b), FlipKind(kind))
  {
    SwapCount(order, b, c, Counting(kind, Every()), Counting(FlipKind(kind), Every()));
  }

  /** Swapping exchanges the regressions and the improvements of the pairs. */
  lemma SwapExchangesRisks(order: Collation, b: seq<Package>, c: seq<Package>, kind: ChangeKind)
    requires ValidPackages(b) && ValidPackages(c)
    ensures Sum(Changes(order, b, c), Pairwise(kind)) == Sum(Changes(order, c, b), Pairwise(FlipKind(kind)))
  {
    SwapCount(order, b, c, Pairwise(kind), Pairwise(FlipKind(kind)));
  }

  function Exactly(e: Entry): Weight { (other: Entry) => if other == e then 1 else 0 }

  /** Entry by entry: a change is reported as often as its mirror image is the other way round. */
  lemma SwapMirrors(order: Collation, b: seq<Package>, c: seq<Package>, e: Entry)
    requires ValidPackages(b) && ValidPackages(c) && !OneSided(e)
    ensures Sum(Changes(order, b, c), Exactly(e)) == Sum(Changes(order, c, b), Exactly(Flip(e)))
  {
    forall other ensures Exactly(e)(other) == Exactly(Flip(e))(Flip(other)) {
      FlipTwice(e);
      FlipTwice(other);
    }
    assert Ignores(Exactly(Flip(e))) by {
      FlipTwice(e);
      assert OneSided(Flip(e)) ==> OneSided(Flip(Flip(e)));
    }
    SwapCount(order, b, c, Exactly(e), Exactly(Flip(e)));
  }

  // ---------------------------------------------------------------- a snapshot against itself

  lemma {:induction false} NothingUnmatched(s: seq<Package>, matched: set<string>)
    requires forall i | 0 <= i < |s| :: PackageKey(s[i]) in matched
    ensures Unmatched(s, matched) == []
  {
    if s != [] {
      NothingUnmatched(s[..|s| - 1], matched);
    }
  }

  lemma NothingWithinItself(x: Package)
    ensures PairChanges(x, x) == [] && Same(x, x)
  {
  }

  lemma {:induction false} ConcatNothing<T, U>(s: seq<T>, g: T -> seq<U>)
    requires forall i | 0 <= i < |s| :: g(s[i]) == []
    ensures Concat(s, g) == []
  {
    if s != [] {
      ConcatNothing(s[..|s| - 1], g);
    }
  }

  lemma KeyWithinItself(b: seq<Package>, key: string)
    requires key in Keys(b)
    ensures OfKey(b, b)(key) == [] && Indicator(b, b)(key) == 1
  {
    LatestHas(b, key);
    NothingWithinItself(Latest(b, key).value);
  }

  /** Compared with itself a snapshot has no changes. */
  lemma SelfComparison(order: Collation, b: seq<Package>)
    ensures Changes(order, b, b) == []
  {
    var ks := Unique(Keys(b));
    forall i | 0 <= i < |ks| ensures OfKey(b, b)(ks[i]) == [] {
      UniqueHas(Keys(b), ks[i]);
      KeyWithinItself(b, ks[i]);
    }
    ConcatNothing(ks, OfKey(b, b));
    forall i | 0 <= i < |b| ensures PackageKey(b[i]) in Matched(b, b) {
      KeyOf(b, b[i]);
    }
    NothingUnmatched(b, Matched(b, b));
  }

  /** Compared with itself a snapshot has every key unchanged once: all its packages where no key is repeated. */
  lemma SelfUnchanged(b: seq<Package>)
    ensures Unchanged(b, b) == |Unique(Keys(b))|
    ensures Unchanged(b, b) == |b| <==> Distinct(Keys(b))
  {
    var ks := Unique(Keys(b));
    forall i | 0 <= i < |ks| ensures Indicator(b, b)(ks[i]) == 1 {
      UniqueHas(Keys(b), ks[i]);
      KeyWithinItself(b, ks[i]);
    }
    SumConstant(ks, Indicator(b, b), 1);
    UniqueCounts(Keys(b));
  }

  // ---------------------------------------------------------------- what is unchanged and what is silent

  predicate ValidIds(ids: seq<string>) { forall i | 0 <= i < |ids| :: ShortText(ids[i], false) }

  /** Joined lists of valid identifiers are equal only when the lists are. */
  lemma {:induction false} JoinIsExact(a: seq<string>, b: seq<string>)
    requires ValidIds(a) && ValidIds(b) && Join(a) == Join(b)
    ensures a == b
  {
    JoinShape(a);
    JoinShape(b);
    if |a| > 1 && |b| > 1 {
      SplitsOnce(Join(a[..|a| - 1]), a[|a| - 1], Join(b[..|b| - 1]), b[|b| - 1]);
      JoinIsExact(a[..|a| - 1], b[..|b| - 1]);
      assert a == a[..|a| - 1] + [a[|a| - 1]] && b == b[..|b| - 1] + [b[|b| - 1]];
    }
  }

  /** A joined list is empty only when the list is, and holds the separator only between members. */
  lemma JoinShape(ids: seq<string>)
    requires ValidIds(ids)
    ensures Join(ids) == "" <==> ids == []
    ensures NUL in Join(ids) <==> |ids| > 1
  {
    if |ids| > 1 {
      var init := Join(ids[..|ids| - 1]);
      assert Join(ids) == init + [NUL] + ids[|ids| - 1];
      assert Join(ids)[|init|] == NUL;
    }
  }

  /** What counts as unchanged reports nothing; what reports nothing may still hide other advisories. */
  lemma UnchangedIsSilent(x: Package, y: Package)
    requires ValidPackage(x) && ValidPackage(y) && x.version == y.version
    ensures PairChanges(x, y) == [] <==>
      x.license == y.license && x.licenseClass == y.licenseClass && x.integrityPresent == y.integrityPresent
      && |x.advisoryIds| == |y.advisoryIds|
    ensures Same(x, y) <==> PairChanges(x, y) == [] && x.advisoryIds == y.advisoryIds
  {
    SilentExactly(x, y);
    if Join(x.advisoryIds) == Join(y.advisoryIds) {
      JoinIsExact(x.advisoryIds, y.advisoryIds);
    }
  }

  lemma SilentExactly(x: Package, y: Package)
    requires x.version == y.version
    ensures PairChanges(x, y) == [] <==>
      x.license == y.license && x.licenseClass == y.licenseClass && x.integrityPresent == y.integrityPresent
      && |x.advisoryIds| == |y.advisoryIds|
  {
    assert PairChanges(x, y) == [] <==>
      LicenseEntry(x, y) == [] && Regressions(x, y) == [] && Improvements(x, y) == [];
  }

  function Sample(advisory: string): Package {
    Package(Npm, "p", "1", "MIT", Permissive, true, false, true, [], [advisory])
  }

  /** One advisory exchanged for another: an exact match that is neither unchanged nor reported. */
  lemma ExchangedAdvisoryIsSilent()
    ensures ValidPackage(Sample("a")) && ValidPackage(Sample("b"))
    ensures PackageKey(Sample("a")) == PackageKey(Sample("b"))
    ensures PairChanges(Sample("a"), Sample("b")) == [] && !Same(Sample("a"), Sample("b"))
  {
    assert "a"[0] != "b"[0];
    SilentExactly(Sample("a"), Sample("b"));
  }
}
