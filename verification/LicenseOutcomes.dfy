/**
 What comes of license reviews and snapshots, said of the fields: which decision
 is refused or recorded, what the gate says, in which order items are listed and
 what a snapshot keeps of a package.
 */
module LicenseOutcomes {
  import opened Options
  import opened Sequences
  import opened Merging
  import opened SupplyChainDiff
  import opened DependencyInventory
  import opened LicenseReview
  import opened SupplyChainReasons

  // ---------------------------------------------------------------- saving a decision

  /** What is recorded fits its bounds; the dates are in milliseconds. */
  predicate Fitting(item: Item, draft: Draft, reviewedAt: int, now: int, trim: string -> string) {
    var m := item.item;
    && |item.id| <= 500 && |m.name| <= 4096 && |m.version| <= 4096 && |m.license| <= 4096
    && |m.source| <= 4096 && |m.integrity| <= 4096 && (m.licenseClass == Reciprocal || m.licenseClass == Unknown)
    && |item.componentIds| <= 16 && (forall i | 0 <= i < |item.componentIds| :: |item.componentIds[i]| <= 100)
    && |trim(trim(draft.reviewer))| >= 2 && |trim(trim(draft.rationale))| >= 8 && reviewedAt <= now + 300000
  }

  /** Why a decision is refused, in this order; None where it is recorded. */
  function Objection(
      item: Item, digest: string, draft: Draft, reviewedAt: Option<int>, now: int, trim: string -> string)
    : Option<Refusal>
  {
    if !(2 <= |trim(draft.reviewer)| <= 80) then Some(ReviewerInvalid)
    else if !(8 <= |trim(draft.rationale)| <= 2000) then Some(RationaleInvalid)
    else if !(draft.validityDays == 30 || draft.validityDays == 90 || draft.validityDays == 180
              || draft.validityDays == 365) then Some(ValidityInvalid)
    else if !HexDigest(digest) then Some(DigestInvalid)
    else if reviewedAt.None? then Some(DateInvalid)
    else if !Fitting(item, draft, reviewedAt.value, now, trim) then Some(RecordInvalid)
    else None
  }

  /** Exactly when a decision is recorded, and what the record in front then says. */
  lemma DecisionRecorded(
      records: seq<Record>, item: Item, digest: string, draft: Draft, reviewedAt: Option<int>, now: int,
      trim: string -> string)
    ensures var outcome := Upsert(records, item, digest, draft, reviewedAt, now, trim);
      match Objection(item, digest, draft, reviewedAt, now, trim)
      case Some(refusal) => outcome == Refused(refusal)
      case None =>
        && outcome.Kept? && outcome.records != []
        && var r := outcome.records[0];
        && r.itemId == item.id && r.inventoryDigest == digest && r.componentIds == item.componentIds
        && r.decision == draft.decision && r.reviewer == trim(draft.reviewer) && r.rationale == trim(draft.rationale)
        && r.reviewedAt == reviewedAt.value && r.expiresAt == reviewedAt.value + draft.validityDays * 86400000
        && r.subject.ecosystem == item.item.ecosystem && r.subject.name == item.item.name
        && r.subject.version == item.item.version && r.subject.license == item.item.license
        && r.subject.licenseClass == item.item.licenseClass && r.subject.source == item.item.source
        && r.subject.integrity == item.item.integrity
        && forall i | 0 < i < |outcome.records| :: outcome.records[i] in records && outcome.records[i].itemId != item.id
  {
    DigestMeans(digest);
    hide IsDigest, HexDigest;
    var rest := Filter(records, NotOf(item.id));
    forall i | 0 <= i < |rest| ensures rest[i] in records && rest[i].itemId != item.id {
      FilterHas(records, NotOf(item.id), rest[i]);
    }
    if reviewedAt.Some? {
      var record := RecordFor(item, digest, draft, reviewedAt.value, trim);
      if Objection(item, digest, draft, reviewedAt, now, trim) in {None, Some(RecordInvalid)} {
        RecordFits(item, digest, draft, reviewedAt.value, now, trim);
      }
      hide ValidRecord, Fitting, RecordFor;
      RecordIs(item, digest, draft, reviewedAt.value, trim);
      assert First([record] + rest, 500)[0] == record;
    }
  }

  lemma RecordIs(item: Item, digest: string, draft: Draft, reviewedAt: int, trim: string -> string)
    ensures var r := RecordFor(item, digest, draft, reviewedAt, trim);
      && r.itemId == item.id && r.inventoryDigest == digest && r.componentIds == item.componentIds
      && r.decision == draft.decision && r.reviewer == trim(draft.reviewer) && r.rationale == trim(draft.rationale)
      && r.reviewedAt == reviewedAt && r.expiresAt == reviewedAt + draft.validityDays * 86400000
      && r.subject.ecosystem == item.item.ecosystem && r.subject.name == item.item.name
      && r.subject.version == item.item.version && r.subject.license == item.item.license
      && r.subject.licenseClass == item.item.licenseClass && r.subject.source == item.item.source
      && r.subject.integrity == item.item.integrity
  {
  }

  lemma RecordFits(item: Item, digest: string, draft: Draft, reviewedAt: int, now: int, trim: string -> string)
    requires |trim(draft.reviewer)| <= 80 && |trim(draft.rationale)| <= 2000
    requires draft.validityDays == 30 || draft.validityDays == 90 || draft.validityDays == 180
             || draft.validityDays == 365
    ensures ValidRecord(RecordFor(item, digest, draft, reviewedAt, trim), digest, now, trim) <==>
      Fitting(item, draft, reviewedAt, now, trim)
  {
  }

  /** A record that can be kept: its texts and lists within bounds, and valid for 29 to 366 days, in milliseconds. */
  lemma ValidMeans(r: Record, digest: string, now: int, trim: string -> string)
    ensures ValidRecord(r, digest, now, trim) <==>
      && r.inventoryDigest == digest && |r.itemId| <= 500
      && |r.subject.name| <= 4096 && |r.subject.version| <= 4096 && |r.subject.license| <= 4096
      && |r.subject.source| <= 4096 && |r.subject.integrity| <= 4096
      && (r.subject.licenseClass == Reciprocal || r.subject.licenseClass == Unknown)
      && |r.componentIds| <= 16 && (forall i | 0 <= i < |r.componentIds| :: |r.componentIds[i]| <= 100)
      && 2 <= |trim(r.reviewer)| && |r.reviewer| <= 80 && 8 <= |trim(r.rationale)| && |r.rationale| <= 2000
      && r.reviewedAt <= now + 300000 && 2505600000 <= r.expiresAt - r.reviewedAt <= 31622400000
  {
  }

  // ---------------------------------------------------------------- the gate

  /** The decision in force for an item: the last one among the records. */
  predicate InForce(records: seq<Record>, id: string, decision: Decision) {
    exists j | 0 <= j < |records| ::
      records[j].itemId == id && records[j].decision == decision
      && forall k | j < k < |records| :: records[k].itemId != id
  }

  predicate Undecided(records: seq<Record>, id: string) { forall j | 0 <= j < |records| :: records[j].itemId != id }

  lemma InForceWith(records: seq<Record>, last: Record, id: string, decision: Decision)
    ensures InForce(records + [last], id, decision) <==>
      if last.itemId == id then last.decision == decision else InForce(records, id, decision)
  {
    var all := records + [last];
    assert all[|records|] == last;
    if last.itemId != id && InForce(records, id, decision) {
      var j :| 0 <= j < |records| && records[j].itemId == id && records[j].decision == decision
        && forall k | j < k < |records| :: records[k].itemId != id;
      assert all[j] == records[j];
    }
    if last.itemId != id && InForce(all, id, decision) {
      var j :| 0 <= j < |all| && all[j].itemId == id && all[j].decision == decision
        && forall k | j < k < |all| :: all[k].itemId != id;
      assert records[j] == all[j];
      assert forall k | j < k < |records| :: records[k] == all[k];
    }
  }

  lemma UndecidedWith(records: seq<Record>, last: Record, id: string)
    ensures Undecided(records + [last], id) <==> last.itemId != id && Undecided(records, id)
  {
    var all := records + [last];
    assert all[|records|] == last;
    assert forall j | 0 <= j < |records| :: all[j] == records[j];
  }

  lemma {:induction false} DecisionMeans(records: seq<Record>, id: string)
    ensures DecisionOf(records, id) == None <==> Undecided(records, id)
    ensures forall d :: DecisionOf(records, id) == Some(d) <==> InForce(records, id, d)
  {
    if records != [] {
      hide InForce, Undecided;
      var init, last := records[..|records| - 1], records[|records| - 1];
      DecisionMeans(init, id);
      assert records == init + [last];
      UndecidedWith(init, last, id);
      forall d ensures DecisionOf(records, id) == Some(d) <==> InForce(records, id, d) {
        InForceWith(init, last, id, d);
      }
    }
  }

  lemma {:induction false} SumIsPositive<T>(s: seq<T>, f: T -> nat)
    ensures Sum(s, f) > 0 <==> exists i | 0 <= i < |s| :: f(s[i]) > 0
  {
    if s != [] {
      var init, n := s[..|s| - 1], |s| - 1;
      SumIsPositive(init, f);
      if exists i | 0 <= i < |init| :: f(init[i]) > 0 {
        var i :| 0 <= i < |init| && f(init[i]) > 0;
        assert f(s[i]) > 0;
      }
      if exists i | 0 <= i < |s| :: f(s[i]) > 0 {
        var i :| 0 <= i < |s| && f(s[i]) > 0;
        assert i < n ==> f(init[i]) > 0;
      }
    }
  }

  function Pending(records: seq<Record>): Item -> nat {
    (m: Item) => if DecisionOf(records, m.id) == None then 1 else 0
  }

  lemma {:induction false} AllAreCounted(items: seq<Item>, records: seq<Record>)
    ensures |items| == Sum(items, Pending(records)) + Sum(items, DecidedAs(records, Approved))
                       + Sum(items, DecidedAs(records, Restricted)) + Sum(items, DecidedAs(records, Blocked))
  {
    if items != [] {
      AllAreCounted(items[..|items| - 1], records);
      match DecisionOf(records, items[|items| - 1].id)
      case None =>
      case Some(decision) =>
        match decision {
          case Approved =>
          case Restricted =>
          case Blocked =>
        }
    }
  }

  /** Some item of the class has this decision in force. */
  predicate SomeIs(items: seq<Item>, records: seq<Record>, licenseClass: LicenseClass, decision: Decision) {
    exists m <- items :: m.item.licenseClass == licenseClass && InForce(records, m.id, decision)
  }

  predicate SomePends(items: seq<Item>, records: seq<Record>, licenseClass: LicenseClass) {
    exists m <- items :: m.item.licenseClass == licenseClass && Undecided(records, m.id)
  }

  lemma SomeDecided(items: seq<Item>, records: seq<Record>, licenseClass: LicenseClass, decision: Decision)
    ensures Sum(Filter(items, OfClass(licenseClass)), DecidedAs(records, decision)) > 0 <==>
      SomeIs(items, records, licenseClass, decision)
  {
    hide InForce;
    var mine := Filter(items, OfClass(licenseClass));
    SumIsPositive(mine, DecidedAs(records, decision));
    forall m ensures m in mine <==> m in items && m.item.licenseClass == licenseClass {
      FilterHas(items, OfClass(licenseClass), m);
    }
    forall m: Item ensures DecidedAs(records, decision)(m) > 0 <==> InForce(records, m.id, decision) {
      DecisionMeans(records, m.id);
    }
    if SomeIs(items, records, licenseClass, decision) {
      var m :| m in items && m.item.licenseClass == licenseClass && InForce(records, m.id, decision);
      var i :| 0 <= i < |mine| && mine[i] == m;
      assert DecidedAs(records, decision)(mine[i]) > 0;
    }
    if i :| 0 <= i < |mine| && DecidedAs(records, decision)(mine[i]) > 0 {
      assert mine[i] in mine;
    }
  }

  lemma SomePending(items: seq<Item>, records: seq<Record>, licenseClass: LicenseClass)
    ensures Sum(Filter(items, OfClass(licenseClass)), Pending(records)) > 0 <==>
      SomePends(items, records, licenseClass)
  {
    hide Undecided;
    var mine := Filter(items, OfClass(licenseClass));
    SumIsPositive(mine, Pending(records));
    forall m ensures m in mine <==> m in items && m.item.licenseClass == licenseClass {
      FilterHas(items, OfClass(licenseClass), m);
    }
    forall m: Item ensures Pending(records)(m) > 0 <==> Undecided(records, m.id) {
      DecisionMeans(records, m.id);
    }
    if SomePends(items, records, licenseClass) {
      var m :| m in items && m.item.licenseClass == licenseClass && Undecided(records, m.id);
      var i :| 0 <= i < |mine| && mine[i] == m;
      assert Pending(records)(mine[i]) > 0;
    }
    if i :| 0 <= i < |mine| && Pending(records)(mine[i]) > 0 {
      assert mine[i] in mine;
    }
  }

  /**
   What the gate says of a class: a blocked item fails it, then a pending one
   fails or warns as the policy wants, then a restricted one warns.
   */
  lemma GateMeans(licenseClass: LicenseClass, rawCount: nat, action: Action, state: Option<State>)
    ensures GateStatus(licenseClass, rawCount, action, state) ==
      if rawCount == 0 then Pass
      else if state.None? then
        match action { case Allow => Pass case Warn => Warning case Block => Fail }
      else
        var items, records := state.value.items, state.value.records;
        if SomeIs(items, records, licenseClass, Blocked) then Fail
        else if SomePends(items, records, licenseClass) then if action == Block then Fail else Warning
        else if SomeIs(items, records, licenseClass, Restricted) then Warning
        else Pass
  {
    hide SomeIs, SomePends;
    if state.Some? {
      var items, records := state.value.items, state.value.records;
      SomeDecided(items, records, licenseClass, Blocked);
      SomeDecided(items, records, licenseClass, Restricted);
      SomePending(items, records, licenseClass);
      AllAreCounted(Filter(items, OfClass(licenseClass)), records);
    }
  }

  // ---------------------------------------------------------------- which decisions are active

  /** What a decision was made about is still as it was. */
  predicate StillTrue(r: Record, m: Item, digest: string) {
    && m.id == r.itemId && r.inventoryDigest == digest
    && r.subject.ecosystem == m.item.ecosystem && r.subject.name == m.item.name
    && r.subject.version == m.item.version && r.subject.license == m.item.license
    && r.subject.licenseClass == m.item.licenseClass && r.subject.source == m.item.source
    && r.subject.integrity == m.item.integrity && Join(r.componentIds) == Join(m.componentIds)
  }

  lemma {:induction false} FindItemIs(items: seq<Item>, m: Item)
    requires DistinctBy(items, OwnId()) && m in items
    ensures FindItem(items, m.id) == Some(m)
  {
    var n := |items| - 1;
    var i :| 0 <= i < |items| && items[i] == m;
    assert forall j | 0 <= j < |items| && j != i :: OwnId()(items[j]) != OwnId()(items[i]);
    if i < n {
      assert items[..n][i] == m;
      FindItemIs(items[..n], m);
    }
  }

  lemma MatchingMeans(items: seq<Item>, digest: string, r: Record)
    requires DistinctBy(items, OwnId())
    ensures Matching(items, digest)(r) <==> exists m <- items :: StillTrue(r, m, digest)
  {
    FindItemHas(items, r.itemId);
    if m :| m in items && StillTrue(r, m, digest) {
      FindItemIs(items, m);
    }
    if Matching(items, digest)(r) {
      assert StillTrue(r, FindItem(items, r.itemId).value, digest);
    }
  }

  /** The records in force are those that are still true of an item and have not expired; the others are told apart. */
  lemma ActiveMeans(items: seq<Item>, records: seq<Record>, digest: string, now: int, r: Record)
    requires DistinctBy(items, OwnId())
    ensures var state := StateOf(items, records, digest, now);
      && (r in state.records <==> r in records && (exists m <- items :: StillTrue(r, m, digest)) && now < r.expiresAt)
      && (r in state.expired <==> r in records && (exists m <- items :: StillTrue(r, m, digest)) && r.expiresAt <= now)
      && state.items == items
  {
    hide StillTrue;
    MatchingMeans(items, digest, r);
    FilterHas(records, Matching(items, digest), r);
    FilterHas(Filter(records, Matching(items, digest)), Active(now), r);
    FilterHas(Filter(records, Matching(items, digest)), Expired(now), r);
  }

  // ---------------------------------------------------------------- the packages of a snapshot

  /** What a snapshot keeps of a package. */
  lemma SnapshotKeeps(m: SharedPackage, plain: Collation, advisories: map<string, seq<string>>)
    ensures var p, d := SnapshotPackage(m, plain, advisories), m.item;
      && p.ecosystem == d.ecosystem && p.name == d.name && p.version == d.version
      && p.licenseClass == d.licenseClass && p.direct == d.direct && p.development == d.development
      && p.integrityPresent == d.integrityPresent
      && p.license == (if |d.license| <= 512 then d.license else d.license[..512])
      && (|m.componentIds| <= 64 ==> forall id :: id in p.componentIds <==> id in m.componentIds)
      && p.componentIds <= Sort(m.componentIds, plain)
      && |p.componentIds| == (if |m.componentIds| <= 64 then |m.componentIds| else 64)
      && var key := (if d.ecosystem.Npm? then "npm" else "cargo") + ['\0'] + d.name + ['\0'] + d.version;
      && (key !in advisories ==> p.advisoryIds == [])
      && (key in advisories && |advisories[key]| <= 64 ==>
            |p.advisoryIds| == |advisories[key]| && forall id :: id in p.advisoryIds <==> id in advisories[key])
  {
    var key := KeyOfDependency(m.item);
    var ids := if key in advisories then advisories[key] else [];
    forall id
      ensures id in Sort(m.componentIds, plain) <==> id in m.componentIds
      ensures id in Sort(ids, plain) <==> id in ids
    {
      SortHas(m.componentIds, plain, id);
      SortHas(ids, plain, id);
    }
    SortHolds(m.componentIds, plain, id => true);
    SortHolds(ids, plain, id => true);
  }

  /** The identifiers are in the order of the comparison. */
  lemma SnapshotIdsAreSorted(m: SharedPackage, plain: Collation, advisories: map<string, seq<string>>)
    requires Consistent(plain)
    ensures var p := SnapshotPackage(m, plain, advisories);
      Ordered(p.componentIds, plain) && Ordered(p.advisoryIds, plain)
  {
    var key := KeyOfDependency(m.item);
    SortOrders(m.componentIds, plain);
    SortOrders(if key in advisories then advisories[key] else [], plain);
  }

  /** By ecosystem, then by name, then by version. */
  predicate NamedBefore(order: Collation, e: Ecosystem, m: string, v: string, f: Ecosystem, n: string, w: string) {
    var a, b := if e.Npm? then "npm" else "cargo", if f.Npm? then "npm" else "cargo";
    order(a, b) < 0 || (order(a, b) == 0 && (order(m, n) < 0 || (order(m, n) == 0 && order(v, w) <= 0)))
  }

  /** A package that is nothing but its name. */
  function NameOnly(d: Dependency): Package {
    Package(d.ecosystem, d.name, d.version, "", Permissive, false, false, false, [], [])
  }

  lemma SharedCollate(order: Collation)
    requires Collates(order)
    ensures Consistent(SharedOrder(order))
  {
    var compare, plain := SharedOrder(order), PackageOrder(order);
    PackagesCollate(order);
    forall x, y ensures compare(x, y) == plain(NameOnly(x.item), NameOnly(y.item)) {
    }
    hide Or, Collates, EcosystemName, SharedOrder, PackageOrder;
    forall x, y, z
      ensures compare(x, y) <= 0 && compare(y, z) <= 0 ==> compare(x, z) <= 0
      ensures compare(x, y) > 0 ==> compare(y, x) <= 0
    {
      var (a, b, c) := (NameOnly(x.item), NameOnly(y.item), NameOnly(z.item));
      assert plain(a, b) > 0 ==> plain(b, a) <= 0;
      assert plain(a, b) <= 0 && plain(b, c) <= 0 ==> plain(a, c) <= 0;
    }
  }

  /** Merged packages are listed in this order. */
  lemma SharedAreListed(order: Collation, ds: seq<Dependency>, i: nat, j: nat)
    requires Collates(order) && i < j < |SharedPackages(order, ds)|
    ensures var all := SharedPackages(order, ds); var x, y := all[i].item, all[j].item;
      NamedBefore(order, x.ecosystem, x.name, x.version, y.ecosystem, y.name, y.version)
  {
    SharedCollate(order);
    hide Consistent, Collates;
    SortOrders(Records(ds, DependencyKey(), StartPackage(), AddPackage()), SharedOrder(order));
    var all := SharedPackages(order, ds);
    assert SharedOrder(order)(all[i], all[j]) <= 0;
  }

  /** And so are those of a snapshot. */
  lemma SnapshotIsListed(
      order: Collation, plain: Collation, advisories: map<string, seq<string>>, ds: seq<Dependency>, i: nat, j: nat)
    requires Collates(order) && i < j < |SnapshotPackages(order, plain, advisories, ds)|
    ensures var all := SnapshotPackages(order, plain, advisories, ds);
      NamedBefore(order, all[i].ecosystem, all[i].name, all[i].version, all[j].ecosystem, all[j].name, all[j].version)
  {
    PackagesCollate(order);
    hide Consistent, Collates, SnapshotPackage;
    var shared := SharedPackages(order, ds);
    SortOrders(seq(|shared|, i requires 0 <= i < |shared| => SnapshotPackage(shared[i], plain, advisories)),
               PackageOrder(order));
    var all := SnapshotPackages(order, plain, advisories, ds);
    assert PackageOrder(order)(all[i], all[j]) <= 0;
  }

  // ---------------------------------------------------------------- merging

  /** License and integrity of a shared package are the first that are given; the rest is the first component's. */
  lemma SharedTexts(m: SharedPackage, d: Dependency)
    ensures var n := AddPackage()(m, d);
      && n.item.license == (if m.item.license != "" then m.item.license else d.license)
      && n.item.integrity == (if m.item.integrity != "" then m.item.integrity else d.integrity)
      && n.item.name == m.item.name && n.item.version == m.item.version && n.item.ecosystem == m.item.ecosystem
      && n.item.licenseClass == m.item.licenseClass && n.item.source == m.item.source
      && n.item.reasons == m.item.reasons && n.item.componentId == m.item.componentId
      && n.componentIds == if d.componentId in m.componentIds then m.componentIds else m.componentIds + [d.componentId]
  {
  }

  /** Reasons are gathered once each, behind those that were there; an empty one never. */
  lemma {:induction false} ReasonsGathered(reasons: seq<string>, more: seq<string>)
    ensures var all := WithReasons(reasons, more);
      && (forall r | r != "" :: r in all <==> r in reasons || r in more)
      && (reasons != [""] ==> reasons <= all)
      && (Distinct(reasons) ==> Distinct(all))
      && ("" in all ==> "" in reasons)
  {
    if more != [] {
      var init, last := more[..|more| - 1], more[|more| - 1];
      ReasonsGathered(reasons, init);
      var before := WithReasons(reasons, init);
      assert more == init + [last];
      if last != "" && last !in before && before != [""] {
        AppendDistinct(before, last);
      }
      if reasons != [""] && before == [""] {
        OnlyEmpty(reasons, before);
      }
    }
  }

  lemma OnlyEmpty(reasons: seq<string>, before: seq<string>)
    requires reasons <= before && before == [""] && reasons != [""]
    ensures reasons == []
  {
  }

  /** What an item takes from a further component: flags and reasons are gathered, the rest is the first component's. */
  lemma ItemGathers(m: Item, d: Dependency)
    ensures var n := AddItem()(m, d);
      && n.id == m.id && n.item.ecosystem == m.item.ecosystem && n.item.name == m.item.name
      && n.item.version == m.item.version && n.item.license == m.item.license
      && n.item.licenseClass == m.item.licenseClass && n.item.source == m.item.source
      && n.item.integrity == m.item.integrity && n.item.componentId == m.item.componentId
      && (n.item.direct <==> m.item.direct || d.direct)
      && (n.item.development <==> m.item.development && d.development)
      && (n.item.integrityPresent <==> m.item.integrityPresent || d.integrityPresent)
      && (m.item.reasons != [""] ==> m.item.reasons <= n.item.reasons)
      && (forall r | r != "" :: r in n.item.reasons <==> r in m.item.reasons || r in d.reasons)
      && n.componentIds == if d.componentId in m.componentIds then m.componentIds else m.componentIds + [d.componentId]
  {
    hide WithReasons;
    ReasonsGathered(m.item.reasons, d.reasons);
  }

  /** The ids of an item's components are in the order of the comparison. */
  lemma ItemIdsAreSorted(hash: Hash, order: Collation, plain: Collation, ds: seq<Dependency>, i: nat)
    requires Consistent(plain) && i < |ReviewItems(hash, order, plain, ds)|
    ensures Ordered(ReviewItems(hash, order, plain, ds)[i].componentIds, plain)
  {
    var merged := Records(Filter(ds, NeedsReview()), DependencyId(hash), StartItem(hash), AddItem());
    var unsorted := WithSortedIds(merged, plain);
    hide Consistent, Ordered, Records, Filter, ItemOrder;
    forall m <- unsorted ensures Ordered(m.componentIds, plain) {
      var j :| 0 <= j < |unsorted| && unsorted[j] == m;
      SortOrders(merged[j].componentIds, plain);
    }
    SortHas(unsorted, ItemOrder(order), ReviewItems(hash, order, plain, ds)[i]);
  }

  /** An item's id is made of what the item is. */
  lemma ItemIdIs(hash: Hash, d: Dependency)
    ensures ItemId(hash, d) == (if d.ecosystem.Npm? then "npm" else "cargo") + ":" + d.name + "@" + d.version + ":"
                               + hash(d.license + ['\0'] + d.source + ['\0'] + d.integrity)
  {
  }

  // ---------------------------------------------------------------- the order of the items

  predicate ItemBefore(order: Collation, x: Item, y: Item) {
    var (c, d) := (ClassText(x.item.licenseClass), ClassText(y.item.licenseClass));
    var (e, f) := (if x.item.ecosystem.Npm? then "npm" else "cargo", if y.item.ecosystem.Npm? then "npm" else "cargo");
    || (x.item.direct && !y.item.direct)
    || (x.item.direct == y.item.direct
        && (order(c, d) < 0
            || (order(c, d) == 0
                && (order(e, f) < 0
                    || (order(e, f) == 0
                        && (order(x.item.name, y.item.name) < 0
                            || (order(x.item.name, y.item.name) == 0
                                && order(x.item.version, y.item.version) <= 0)))))))
  }

  function ClassText(c: LicenseClass): string {
    if c.Permissive? then "permissive" else if c.Reciprocal? then "reciprocal" else "unknown"
  }

  lemma ItemOrderMeans(order: Collation, x: Item, y: Item)
    ensures ItemOrder(order)(x, y) <= 0 <==> ItemBefore(order, x, y)
  {
  }

  lemma ItemsCollate(order: Collation)
    requires Collates(order)
    ensures Consistent(ItemOrder(order))
  {
    var compare := ItemOrder(order);
    forall x, y, z ensures compare(x, y) <= 0 && compare(y, z) <= 0 ==> compare(x, z) <= 0 {
      hide Or, Collates, EcosystemName, ClassName;
      OrUnfolds(order, x.item.version, y.item.version, z.item.version);
      var (u, v, w) := (order(x.item.version, y.item.version), order(y.item.version, z.item.version),
                        order(x.item.version, z.item.version));
      OrIsTransitive(order, x.item.name, y.item.name, z.item.name, u, v, w);
      var (p, q, r) := (Or(order(x.item.name, y.item.name), u), Or(order(y.item.name, z.item.name), v),
                        Or(order(x.item.name, z.item.name), w));
      var (a, b, c) := (EcosystemName(x.item.ecosystem), EcosystemName(y.item.ecosystem),
                        EcosystemName(z.item.ecosystem));
      OrIsTransitive(order, a, b, c, p, q, r);
      var (k, l, m) := (ClassName(x.item.licenseClass), ClassName(y.item.licenseClass), ClassName(z.item.licenseClass));
      OrIsTransitive(order, k, l, m, Or(order(a, b), p), Or(order(b, c), q), Or(order(a, c), r));
      DirectFirst(x, y, z, Or(order(k, l), Or(order(a, b), p)), Or(order(l, m), Or(order(b, c), q)),
                  Or(order(k, m), Or(order(a, c), r)));
    }
    forall x, y ensures compare(x, y) > 0 ==> compare(y, x) <= 0 {
      hide Or, Collates, EcosystemName, ClassName;
      OrUnfolds(order, x.item.version, y.item.version, x.item.version);
      var (u, v) := (order(x.item.version, y.item.version), order(y.item.version, x.item.version));
      OrIsTotal(order, x.item.name, y.item.name, u, v);
      var (p, q) := (Or(order(x.item.name, y.item.name), u), Or(order(y.item.name, x.item.name), v));
      var (a, b) := (EcosystemName(x.item.ecosystem), EcosystemName(y.item.ecosystem));
      OrIsTotal(order, a, b, p, q);
      var (k, l) := (ClassName(x.item.licenseClass), ClassName(y.item.licenseClass));
      OrIsTotal(order, k, l, Or(order(a, b), p), Or(order(b, a), q));
      DirectEither(x, y, Or(order(k, l), Or(order(a, b), p)), Or(order(l, k), Or(order(b, a), q)));
    }
  }

  lemma DirectFirst(x: Item, y: Item, z: Item, u: int, v: int, w: int)
    requires u <= 0 && v <= 0 ==> w <= 0
    ensures (Or(Number(y.item.direct) - Number(x.item.direct), u) <= 0
             && Or(Number(z.item.direct) - Number(y.item.direct), v) <= 0) ==>
        Or(Number(z.item.direct) - Number(x.item.direct), w) <= 0
  {
  }

  lemma DirectEither(x: Item, y: Item, u: int, v: int)
    requires u > 0 ==> v <= 0
    ensures Or(Number(y.item.direct) - Number(x.item.direct), u) > 0 ==>
      Or(Number(x.item.direct) - Number(y.item.direct), v) <= 0
  {
  }

  /** Direct items come first, then the order is by class, ecosystem, name and version. */
  lemma ItemsAreListed(hash: Hash, order: Collation, plain: Collation, ds: seq<Dependency>, i: nat, j: nat)
    requires Collates(order) && i < j < |ReviewItems(hash, order, plain, ds)|
    ensures var items := ReviewItems(hash, order, plain, ds); ItemBefore(order, items[i], items[j])
  {
    hide Consistent, Collates, ItemBefore, ItemOrder;
    var items := ReviewItems(hash, order, plain, ds);
    ItemsCollate(order);
    var merged := Records(Filter(ds, NeedsReview()), DependencyId(hash), StartItem(hash), AddItem());
    SortOrders(WithSortedIds(merged, plain), ItemOrder(order));
    assert Ordered(items, ItemOrder(order));
    ItemOrderMeans(order, items[i], items[j]);
  }
}
