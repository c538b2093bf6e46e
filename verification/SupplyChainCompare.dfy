/**
 The comparison as it runs: one result object whose lists the loops push to,
 proved against the changes that SupplyChainDiff defines.
 */
module SupplyChainCompare {
  import opened Options
  import opened Sequences
  import opened SupplyChainDiff

  datatype Summary = Summary(
    packages: nat, direct: nat, development: nat, unknownLicense: nat, reciprocalLicense: nat,
    missingIntegrity: nat, affectedPackages: nat)

  /** createdAt is None where the date cannot be parsed. */
  datatype Snapshot = Snapshot(
    createdAt: Option<int>, inventoryDigest: string, advisoryRequestDigest: string, packages: seq<Package>,
    summary: Summary)

  predicate ValidSummary(s: Summary) {
    && s.packages <= MAX_PACKAGES && s.direct <= MAX_PACKAGES && s.development <= MAX_PACKAGES
    && s.unknownLicense <= MAX_PACKAGES && s.reciprocalLicense <= MAX_PACKAGES
    && s.missingIntegrity <= MAX_PACKAGES && s.affectedPackages <= MAX_PACKAGES
  }

  predicate IsSnapshot(s: Snapshot, now: int) {
    && s.createdAt.Some? && s.createdAt.value <= now + CLOCK_SKEW
    && IsDigest(s.inventoryDigest)
    && (s.advisoryRequestDigest == "" || IsDigest(s.advisoryRequestDigest))
    && ValidPackages(s.packages)
    && ValidSummary(s.summary) && s.summary.packages == |s.packages|
  }

  /** The entries of one kind, in the order in which they were pushed. */
  function OfKind(log: seq<Entry>, kind: ChangeKind): seq<Entry> {
    if log == [] then [] else OfKind(log[..|log| - 1], kind) + When(log[|log| - 1].kind == kind, log[|log| - 1])
  }

  lemma PairRegroups(log: seq<Entry>, x: Package, y: Package)
    ensures log + VersionEntry(x, y) + LicenseEntry(x, y) + RegressionEntry(x, y) + ImprovementEntry(x, y)
      == log + PairChanges(x, y)
  {
    var v, l, r, i := VersionEntry(x, y), LicenseEntry(x, y), RegressionEntry(x, y), ImprovementEntry(x, y);
    Regroup(log, v, l);
    Regroup(log, v + l, r);
    Regroup(log, v + l + r, i);
  }

  function MatchChanges(before: Package, after: Option<Package>): seq<Entry> {
    if after.Some? then PairChanges(before, after.value) else []
  }

  function MatchCount(before: Package, after: Option<Package>): nat {
    if after.Some? && Same(before, after.value) then 1 else 0
  }

  /** Looking a key up on both sides gives the changes and the count that stand for it. */
  lemma KeyMeans(b: seq<Package>, c: seq<Package>, key: string)
    requires key in Keys(b)
    ensures Latest(b, key).Some?
    ensures OfKey(b, c)(key) == MatchChanges(Latest(b, key).value, Latest(c, key))
    ensures Indicator(b, c)(key) == MatchCount(Latest(b, key).value, Latest(c, key))
  {
    LatestHas(b, key);
  }

  /** Those of the keys that s has. */
  function MatchedAmong(keys: seq<string>, s: seq<Package>): set<string> {
    if keys == [] then {}
    else MatchedAmong(keys[..|keys| - 1], s) + if Latest(s, keys[|keys| - 1]).Some? then {keys[|keys| - 1]} else {}
  }

  lemma {:induction false} MatchedAmongHas(keys: seq<string>, s: seq<Package>)
    ensures forall key :: key in MatchedAmong(keys, s) <==> key in keys && key in Keys(s)
  {
    if keys != [] {
      MatchedAmongHas(keys[..|keys| - 1], s);
      LatestHas(s, keys[|keys| - 1]);
      assert keys == keys[..|keys| - 1] + [keys[|keys| - 1]];
    }
  }

  lemma NextKey(b: seq<Package>, c: seq<Package>, keys: seq<string>, n: nat)
    requires n < |keys| && keys[n] in Keys(b)
    ensures Latest(b, keys[n]).Some?
    ensures var before, after := Latest(b, keys[n]).value, Latest(c, keys[n]);
      && Concat(keys[..n + 1], OfKey(b, c)) == Concat(keys[..n], OfKey(b, c)) + MatchChanges(before, after)
      && Sum(keys[..n + 1], Indicator(b, c)) == Sum(keys[..n], Indicator(b, c)) + MatchCount(before, after)
      && MatchedAmong(keys[..n + 1], c) == MatchedAmong(keys[..n], c) + if after.Some? then {keys[n]} else {}
  {
    KeyMeans(b, c, keys[n]);
    assert keys[..n + 1][..n] == keys[..n];
  }

  class DiffResult {
    var added: seq<Entry>
    var removed: seq<Entry>
    var updated: seq<Entry>
    var licenseChanges: seq<Entry>
    var riskRegressions: seq<Entry>
    var riskImprovements: seq<Entry>
    var unchangedCount: nat
    /** Everything pushed so far. */
    ghost var log: seq<Entry>

    function List(kind: ChangeKind): seq<Entry>
      reads this
    {
      match kind
      case Added => added
      case Removed => removed
      case Updated => updated
      case License => licenseChanges
      case Regression => riskRegressions
      case Improvement => riskImprovements
    }

    ghost predicate Valid()
      reads this
    {
      forall kind :: List(kind) == OfKind(log, kind)
    }

    constructor ()
      ensures Valid() && log == [] && unchangedCount == 0
    {
      added, removed, updated, licenseChanges, riskRegressions, riskImprovements := [], [], [], [], [], [];
      unchangedCount := 0;
      log := [];
    }

    method Push(e: Entry)
      requires Valid()
      modifies this
      ensures Valid() && log == old(log) + [e] && unchangedCount == old(unchangedCount)
    {
      match e.kind {
        case Added => added := added + [e];
        case Removed => removed := removed + [e];
        case Updated => updated := updated + [e];
        case License => licenseChanges := licenseChanges + [e];
        case Regression => riskRegressions := riskRegressions + [e];
        case Improvement => riskImprovements := riskImprovements + [e];
      }
      assert (log + [e])[..|log|] == log;
      log := log + [e];
    }

    method ComparePair(before: Package, after: Package)
      requires Valid()
      modifies this
      ensures Valid() && log == old(log) + PairChanges(before, after) && unchangedCount == old(unchangedCount)
    {
      CompareVersion(before, after);
      CompareLicense(before, after);
      CompareRisk(before, after);
      PairRegroups(old(log), before, after);
    }

    method CompareVersion(before: Package, after: Package)
      requires Valid()
      modifies this
      ensures Valid() && log == old(log) + VersionEntry(before, after) && unchangedCount == old(unchangedCount)
    {
      if before.version != after.version {
        Push(EntryOf(Updated, Some(before), Some(after), [VersionChanged]));
      }
    }

    method CompareLicense(before: Package, after: Package)
      requires Valid()
      modifies this
      ensures Valid() && log == old(log) + LicenseEntry(before, after) && unchangedCount == old(unchangedCount)
    {
      if before.licenseClass != after.licenseClass || before.license != after.license {
        var reason :=
          if before.licenseClass != after.licenseClass then LicenseClassChanged else LicenseExpressionChanged;
        Push(EntryOf(License, Some(before), Some(after), [reason]));
      }
    }

    method CompareRisk(before: Package, after: Package)
      requires Valid()
      modifies this
      ensures Valid() && unchangedCount == old(unchangedCount)
      ensures log == old(log) + RegressionEntry(before, after) + ImprovementEntry(before, after)
    {
      var regressions, improvements := [], [];
      if RiskRank(after.licenseClass) > RiskRank(before.licenseClass) {
        regressions := regressions + [LicenseRiskIncreased];
      }
      if RiskRank(after.licenseClass) < RiskRank(before.licenseClass) {
        improvements := improvements + [LicenseRiskDecreased];
      }
      if before.integrityPresent && !after.integrityPresent { regressions := regressions + [IntegrityMissing]; }
      if !before.integrityPresent && after.integrityPresent { improvements := improvements + [IntegrityRestored]; }
      if |after.advisoryIds| > |before.advisoryIds| { regressions := regressions + [AdvisoriesIncreased]; }
      if |after.advisoryIds| < |before.advisoryIds| { improvements := improvements + [AdvisoriesDecreased]; }
      assert regressions == Regressions(before, after) && improvements == Improvements(before, after);
      if |regressions| > 0 {
        Push(EntryOf(Regression, Some(before), Some(after), regressions));
      }
      if |improvements| > 0 {
        Push(EntryOf(Improvement, Some(before), Some(after), improvements));
      }
    }

    /** What is left of one lineage: pairs first, then the surplus of either side. */
    method CompareLineage(before: seq<Package>, after: seq<Package>)
      requires Valid()
      modifies this
      ensures Valid() && log == old(log) + LineageChanges(before, after) && unchangedCount == old(unchangedCount)
    {
      var pairs := Min(|before|, |after|);
      ghost var zipped := Zip(before, after, pairs);
      for index := 0 to pairs
        invariant Valid() && unchangedCount == old(unchangedCount)
        invariant log == old(log) + Concat(zipped[..index], OfPair())
      {
        ConcatNext(zipped, OfPair(), index);
        Regroup(old(log), Concat(zipped[..index], OfPair()), PairChanges(before[index], after[index]));
        ComparePair(before[index], after[index]);
      }
      assert zipped[..pairs] == zipped;
      Remove(before[pairs..]);
      Add(after[pairs..]);
      Regroup(old(log), Concat(zipped, OfPair()), Concat(before[pairs..], OfRemoved()));
      Regroup(old(log), Concat(zipped, OfPair()) + Concat(before[pairs..], OfRemoved()),
              Concat(after[pairs..], OfAdded()));
    }

    method Remove(surplus: seq<Package>)
      requires Valid()
      modifies this
      ensures Valid() && log == old(log) + Concat(surplus, OfRemoved()) && unchangedCount == old(unchangedCount)
    {
      for index := 0 to |surplus|
        invariant Valid() && unchangedCount == old(unchangedCount)
        invariant log == old(log) + Concat(surplus[..index], OfRemoved())
      {
        ConcatNext(surplus, OfRemoved(), index);
        Regroup(old(log), Concat(surplus[..index], OfRemoved()), [RemovedEntry(surplus[index])]);
        Push(EntryOf(Removed, Some(surplus[index]), None, [PackageRemoved]));
      }
      assert surplus[..|surplus|] == surplus;
    }

    method Add(surplus: seq<Package>)
      requires Valid()
      modifies this
      ensures Valid() && log == old(log) + Concat(surplus, OfAdded()) && unchangedCount == old(unchangedCount)
    {
      for index := 0 to |surplus|
        invariant Valid() && unchangedCount == old(unchangedCount)
        invariant log == old(log) + Concat(surplus[..index], OfAdded())
      {
        ConcatNext(surplus, OfAdded(), index);
        Regroup(old(log), Concat(surplus[..index], OfAdded()), AddedEntries(surplus[index]));
        AddOne(surplus[index]);
      }
      assert surplus[..|surplus|] == surplus;
    }

    method AddOne(item: Package)
      requires Valid()
      modifies this
      ensures Valid() && log == old(log) + AddedEntries(item) && unchangedCount == old(unchangedCount)
    {
      Push(EntryOf(Added, None, Some(item), [PackageAdded]));
      var risks := Risks(item);
      if |risks| > 0 {
        Push(EntryOf(Regression, None, Some(item), risks));
        Regroup(old(log), [AddedEntry(item)], [EntryOf(Regression, None, Some(item), risks)]);
      }
    }

    method CompareMatch(before: Package, after: Option<Package>)
      requires Valid()
      modifies this
      ensures Valid() && log == old(log) + MatchChanges(before, after)
      ensures unchangedCount == old(unchangedCount) + MatchCount(before, after)
    {
      if after.None? {
        assert MatchChanges(before, after) == [] && log + [] == log;
        return;
      }
      ComparePair(before, after.value);
      if Same(before, after.value) {
        unchangedCount := unchangedCount + 1;
      }
    }

    /** Runs through the baseline's keys; collects those that the current packages have too. */
    method CompareKeys(b: seq<Package>, c: seq<Package>, keys: seq<string>) returns (matched: set<string>)
      requires Valid() && log == [] && unchangedCount == 0
      requires forall i | 0 <= i < |keys| :: keys[i] in Keys(b)
      modifies this
      ensures Valid() && log == Concat(keys, OfKey(b, c)) && unchangedCount == Sum(keys, Indicator(b, c))
      ensures matched == MatchedAmong(keys, c)
    {
      matched := {};
      for index := 0 to |keys|
        invariant Valid() && log == Concat(keys[..index], OfKey(b, c))
        invariant unchangedCount == Sum(keys[..index], Indicator(b, c))
        invariant matched == MatchedAmong(keys[..index], c)
      {
        NextKey(b, c, keys, index);
        var before, after := Latest(b, keys[index]).value, Latest(c, keys[index]);
        CompareMatch(before, after);
        matched := matched + if after.Some? then {keys[index]} else {};
      }
      assert keys[..|keys|] == keys;
    }

    method CompareExact(b: seq<Package>, c: seq<Package>) returns (matched: set<string>)
      requires Valid() && log == [] && unchangedCount == 0
      modifies this
      ensures Valid() && log == ExactChanges(b, c) && unchangedCount == Unchanged(b, c) && matched == Matched(b, c)
    {
      forall key ensures key in Unique(Keys(b)) <==> key in Keys(b) {
        UniqueHas(Keys(b), key);
      }
      matched := CompareKeys(b, c, Unique(Keys(b)));
      MatchedAmongHas(Unique(Keys(b)), c);
    }

    method CompareLeftovers(order: Collation, ub: seq<Package>, uc: seq<Package>)
      requires Valid()
      modifies this
      ensures Valid() && log == old(log) + LeftoverChanges(order, ub, uc) && unchangedCount == old(unchangedCount)
    {
      hide LineageChanges, Line, Lineages;
      var lineages := Lineages(ub, uc);
      for index := 0 to |lineages|
        invariant Valid() && unchangedCount == old(unchangedCount)
        invariant log == old(log) + Concat(lineages[..index], OfLine(order, ub, uc))
      {
        var before, after := Line(order, ub, lineages[index]), Line(order, uc, lineages[index]);
        ConcatNext(lineages, OfLine(order, ub, uc), index);
        Regroup(old(log), Concat(lineages[..index], OfLine(order, ub, uc)), LineageChanges(before, after));
        CompareLineage(before, after);
      }
      assert lineages[..|lineages|] == lineages;
    }

    /** The six lists hold exactly these changes, each sorted. */
    ghost predicate Reports(order: Collation, changes: seq<Entry>)
      reads this
    {
      var compare := EntryOrder(order);
      && added == Sort(OfKind(changes, Added), compare)
      && removed == Sort(OfKind(changes, Removed), compare)
      && updated == Sort(OfKind(changes, Updated), compare)
      && licenseChanges == Sort(OfKind(changes, License), compare)
      && riskRegressions == Sort(OfKind(changes, Regression), compare)
      && riskImprovements == Sort(OfKind(changes, Improvement), compare)
    }

    method SortLists(order: Collation)
      requires Valid()
      modifies this
      ensures Reports(order, old(log)) && unchangedCount == old(unchangedCount)
    {
      hide OfKind, Sort, EntryOrder;
      var compare := EntryOrder(order);
      assert added == List(Added) == OfKind(log, Added);
      assert removed == List(Removed) == OfKind(log, Removed);
      assert updated == List(Updated) == OfKind(log, Updated);
      assert licenseChanges == List(License) == OfKind(log, License);
      assert riskRegressions == List(Regression) == OfKind(log, Regression);
      assert riskImprovements == List(Improvement) == OfKind(log, Improvement);
      added, removed, updated := Sort(added, compare), Sort(removed, compare), Sort(updated, compare);
      licenseChanges, riskRegressions := Sort(licenseChanges, compare), Sort(riskRegressions, compare);
      riskImprovements := Sort(riskImprovements, compare);
    }
  }

  /** The whole comparison; None where one of the snapshots is refused. */
  method CompareSnapshots(order: Collation, baseline: Snapshot, current: Snapshot, now: int)
    returns (result: Option<DiffResult>)
    ensures result.Some? <==> IsSnapshot(baseline, now) && IsSnapshot(current, now)
    ensures result.Some? ==> fresh(result.value)
    ensures result.Some? ==> result.value.Reports(order, Changes(order, baseline.packages, current.packages))
    ensures result.Some? ==> result.value.unchangedCount == Unchanged(baseline.packages, current.packages)
  {
    if !IsSnapshot(baseline, now) || !IsSnapshot(current, now) {
      return None;
    }
    var diff := new DiffResult();
    var matched := diff.CompareExact(baseline.packages, current.packages);
    diff.CompareLeftovers(order, Unmatched(baseline.packages, matched), Unmatched(current.packages, matched));
    diff.SortLists(order);
    result := Some(diff);
  }

  /** The length of a list is the count of its kind. */
  lemma {:induction false} ListLength(log: seq<Entry>, kind: ChangeKind, order: Collation)
    ensures |Sort(OfKind(log, kind), EntryOrder(order))| == Count(log, kind)
  {
    SortHolds(OfKind(log, kind), EntryOrder(order), e => true);
    OfKindLength(log, kind);
  }

  lemma {:induction false} OfKindLength(log: seq<Entry>, kind: ChangeKind)
    ensures |OfKind(log, kind)| == Count(log, kind)
  {
    if log != [] {
      OfKindLength(log[..|log| - 1], kind);
    }
  }

  lemma {:induction false} OfKindMultiplicity(log: seq<Entry>, kind: ChangeKind, e: Entry)
    ensures Sum(OfKind(log, kind), Exactly(e)) == if e.kind == kind then Sum(log, Exactly(e)) else 0
  {
    if log != [] {
      var init, last := log[..|log| - 1], log[|log| - 1];
      OfKindMultiplicity(init, kind, e);
      SumAppend(OfKind(init, kind), When(last.kind == kind, last), Exactly(e));
      SumWhen(last.kind == kind, last, Exactly(e));
    }
  }

  /** The sorted list of a kind holds each entry of that kind as often as it was found, and no other entry. */
  lemma ListMultiplicity(log: seq<Entry>, kind: ChangeKind, order: Collation, e: Entry)
    ensures Sum(Sort(OfKind(log, kind), EntryOrder(order)), Exactly(e))
         == if e.kind == kind then Sum(log, Exactly(e)) else 0
  {
    SumSort(OfKind(log, kind), EntryOrder(order), Exactly(e));
    OfKindMultiplicity(log, kind, e);
  }
}
