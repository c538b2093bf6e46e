/** Licenses that need a review: the items, the register of decisions and the gate they feed. */
module LicenseReview {
  import opened Options
  import opened Sequences
  import opened Merging
  import opened SupplyChainDiff
  import opened DependencyInventory

  const REGISTER_LIMIT: nat := 500
  const DAY: int := 86400000

  /** A package under review; item.reasons gathers the reasons of all its components. */
  datatype Item = Item(id: string, item: Dependency, componentIds: seq<string>)

  datatype Decision = Approved | Restricted | Blocked

  /** What a decision was made about. */
  datatype Subject = Subject(
    ecosystem: Ecosystem, name: string, version: string, license: string, licenseClass: LicenseClass,
    source: string, integrity: string)

  datatype Record = Record(
    itemId: string, inventoryDigest: string, subject: Subject, componentIds: seq<string>, decision: Decision,
    reviewer: string, rationale: string, reviewedAt: int, expiresAt: int)

  datatype Draft = Draft(decision: Decision, reviewer: string, rationale: string, validityDays: int)

  datatype Refusal = ReviewerInvalid | RationaleInvalid | ValidityInvalid | DigestInvalid | DateInvalid | RecordInvalid

  datatype Outcome = Kept(records: seq<Record>) | Refused(refusal: Refusal)

  // ---------------------------------------------------------------- items

  /** The hash that tells packages of one version with other metadata apart. */
  type Hash = string -> string

  function ItemId(hash: Hash, d: Dependency): string {
    EcosystemName(d.ecosystem) + ":" + d.name + "@" + d.version + ":"
    + hash(d.license + [NUL] + d.source + [NUL] + d.integrity)
  }

  function DependencyId(hash: Hash): Dependency -> string { (d: Dependency) => ItemId(hash, d) }

  function OwnId(): Item -> string { (m: Item) => m.id }

  function StartItem(hash: Hash): Dependency -> Item { (d: Dependency) => Item(ItemId(hash, d), d, [d.componentId]) }

  /** Reasons that are new are added behind the others; an empty text is replaced. */
  function WithReasons(reasons: seq<string>, more: seq<string>): seq<string> {
    if more == [] then reasons
    else
      var before, last := WithReasons(reasons, more[..|more| - 1]), more[|more| - 1];
      if last == "" || last in before then before
      else if before == [""] then [last]
      else before + [last]
  }

  function AddItem(): (Item, Dependency) -> Item {
    (m: Item, d: Dependency) =>
      Item(m.id,
           m.item.(direct := m.item.direct || d.direct,
                   development := m.item.development && d.development,
                   integrityPresent := m.item.integrityPresent || d.integrityPresent,
                   reasons := WithReasons(m.item.reasons, d.reasons)),
           WithId(m.componentIds, d.componentId))
  }

  function NeedsReview(): Dependency -> bool { (d: Dependency) => d.licenseClass != Permissive }

  function ClassName(c: LicenseClass): string {
    match c case Permissive => "permissive" case Reciprocal => "reciprocal" case Unknown => "unknown"
  }

  function Number(b: bool): int { if b then 1 else 0 }

  function ItemOrder(order: Collation): (Item, Item) -> int {
    (x: Item, y: Item) =>
      Or(Number(y.item.direct) - Number(x.item.direct),
         Or(order(ClassName(x.item.licenseClass), ClassName(y.item.licenseClass)),
            Or(order(EcosystemName(x.item.ecosystem), EcosystemName(y.item.ecosystem)),
               Or(order(x.item.name, y.item.name), order(x.item.version, y.item.version)))))
  }

  function WithSortedIds(items: seq<Item>, plain: Collation): (r: seq<Item>)
    ensures |r| == |items|
  {
    seq(|items|, i requires 0 <= i < |items| => items[i].(componentIds := Sort(items[i].componentIds, plain)))
  }

  function ReviewItems(hash: Hash, order: Collation, plain: Collation, ds: seq<Dependency>): seq<Item> {
    var merged := Records(Filter(ds, NeedsReview()), DependencyId(hash), StartItem(hash), AddItem());
    Sort(WithSortedIds(merged, plain), ItemOrder(order))
  }

  method BuildLicenseReviewItems(hash: Hash, order: Collation, plain: Collation, ds: seq<Dependency>)
    returns (r: seq<Item>)
    ensures r == ReviewItems(hash, order, plain, ds)
  {
    var merged := Merge(Filter(ds, NeedsReview()), DependencyId(hash), StartItem(hash), AddItem());
    r := Sort(WithSortedIds(merged, plain), ItemOrder(order));
  }

  /** Some package that is not permissive has this id. */
  predicate Reviewed(hash: Hash, ds: seq<Dependency>, id: string) {
    exists i | 0 <= i < |ds| ::
      (ds[i].licenseClass.Reciprocal? || ds[i].licenseClass.Unknown?) && ItemId(hash, ds[i]) == id
  }

  /** The items divide the packages that are not permissive among them, by id. */
  lemma ItemsPartition(hash: Hash, order: Collation, plain: Collation, ds: seq<Dependency>)
    ensures var items := ReviewItems(hash, order, plain, ds);
      && DistinctBy(items, OwnId())
      && forall id :: id in KeysOf(items, OwnId()) <==> Reviewed(hash, ds, id)
  {
    var reviewed := Filter(ds, NeedsReview());
    var merged := Records(reviewed, DependencyId(hash), StartItem(hash), AddItem());
    var unsorted, items := WithSortedIds(merged, plain), ReviewItems(hash, order, plain, ds);
    RecordsPartition(reviewed, DependencyId(hash), StartItem(hash), AddItem(), OwnId());
    assert KeysOf(unsorted, OwnId()) == KeysOf(merged, OwnId());
    assert DistinctBy(unsorted, OwnId());
    SortKeepsDistinct(unsorted, ItemOrder(order), OwnId());
    forall id ensures id in KeysOf(items, OwnId()) <==> id in KeysOf(unsorted, OwnId()) {
      SortKeepsKeys(unsorted, ItemOrder(order), id);
    }
    forall id ensures id in KeysOf(reviewed, DependencyId(hash)) <==> Reviewed(hash, ds, id) {
      ReviewedIds(hash, ds, id);
    }
  }

  lemma SortKeepsKeys(items: seq<Item>, compare: (Item, Item) -> int, id: string)
    ensures id in KeysOf(Sort(items, compare), OwnId()) <==> id in KeysOf(items, OwnId())
  {
    var sorted := Sort(items, compare);
    if id in KeysOf(sorted, OwnId()) {
      var i :| 0 <= i < |sorted| && sorted[i].id == id;
      SortHas(items, compare, sorted[i]);
      var j :| 0 <= j < |items| && items[j] == sorted[i];
      assert KeysOf(items, OwnId())[j] == id;
    }
    if id in KeysOf(items, OwnId()) {
      var i :| 0 <= i < |items| && items[i].id == id;
      SortHas(items, compare, items[i]);
      var j :| 0 <= j < |sorted| && sorted[j] == items[i];
      assert KeysOf(sorted, OwnId())[j] == id;
    }
  }

  lemma ReviewedIds(hash: Hash, ds: seq<Dependency>, id: string)
    ensures id in KeysOf(Filter(ds, NeedsReview()), DependencyId(hash)) <==> Reviewed(hash, ds, id)
  {
    var reviewed := Filter(ds, NeedsReview());
    if id in KeysOf(reviewed, DependencyId(hash)) {
      var i :| 0 <= i < |reviewed| && KeysOf(reviewed, DependencyId(hash))[i] == id;
      ReviewedBack(hash, ds, i);
    }
    if Reviewed(hash, ds, id) {
      var i :| 0 <= i < |ds| && NeedsReview()(ds[i]) && ItemId(hash, ds[i]) == id;
      FilterHas(ds, NeedsReview(), ds[i]);
      var j :| 0 <= j < |reviewed| && reviewed[j] == ds[i];
      assert KeysOf(reviewed, DependencyId(hash))[j] == id;
    }
  }

  lemma ReviewedBack(hash: Hash, ds: seq<Dependency>, i: nat)
    requires i < |Filter(ds, NeedsReview())|
    ensures Reviewed(hash, ds, ItemId(hash, Filter(ds, NeedsReview())[i]))
  {
    var d := Filter(ds, NeedsReview())[i];
    FilterHas(ds, NeedsReview(), d);
    var j :| 0 <= j < |ds| && ds[j] == d;
    assert NeedsReview()(ds[j]) && ItemId(hash, ds[j]) == ItemId(hash, d);
  }

  /** What one of the components can say about an item. */
  predicate ItemHas(m: Item, flag: Flag) {
    match flag
    case IsDirect => m.item.direct
    case IsDevelopment => !m.item.development
    case HasIntegrity => m.item.integrityPresent
    case HasLicense => m.item.license != ""
    case UsedBy(id) => id in m.componentIds
  }

  predicate Told(d: Dependency, flag: Flag) { if flag.IsDevelopment? then !d.development else Has(d, flag) }

  function Telling(flag: Flag): Dependency -> bool { (d: Dependency) => Told(d, flag) }

  function ItemHaving(flag: Flag): Item -> bool { (m: Item) => ItemHas(m, flag) }

  /** An item is direct where some component says so, but only for development where all of them do. */
  lemma ItemFlags(hash: Hash, ds: seq<Dependency>, id: string, flag: Flag)
    requires !flag.HasLicense?
    ensures match MergedAt(ds, DependencyId(hash), StartItem(hash), AddItem(), id)
            case None => !SomeSets(ds, DependencyId(hash), id, Telling(flag))
            case Some(m) => ItemHas(m, flag) <==> SomeSets(ds, DependencyId(hash), id, Telling(flag))
  {
    MergedAny(ds, DependencyId(hash), StartItem(hash), AddItem(), id, Telling(flag), ItemHaving(flag));
  }

  // ---------------------------------------------------------------- the register

  function SubjectOf(d: Dependency): Subject {
    Subject(d.ecosystem, d.name, d.version, d.license, d.licenseClass, d.source, d.integrity)
  }

  predicate ValidSubject(s: Subject) {
    |s.name| <= 4096 && |s.version| <= 4096 && |s.license| <= 4096 && |s.source| <= 4096 && |s.integrity| <= 4096
    && s.licenseClass != Permissive
  }

  predicate ValidRecord(r: Record, digest: string, now: int, trim: string -> string) {
    && |r.itemId| <= 500 && r.inventoryDigest == digest && ValidSubject(r.subject)
    && |r.componentIds| <= 16 && (forall i | 0 <= i < |r.componentIds| :: |r.componentIds[i]| <= 100)
    && |trim(r.reviewer)| >= 2 && |r.reviewer| <= 80 && |trim(r.rationale)| >= 8 && |r.rationale| <= 2000
    && r.reviewedAt <= now + CLOCK_SKEW && 29 * DAY <= r.expiresAt - r.reviewedAt <= 366 * DAY
  }

  function RecordFor(item: Item, digest: string, draft: Draft, reviewedAt: int, trim: string -> string): Record {
    Record(item.id, digest, SubjectOf(item.item), item.componentIds, draft.decision, trim(draft.reviewer),
           trim(draft.rationale), reviewedAt, reviewedAt + draft.validityDays * DAY)
  }

  function NotOf(id: string): Record -> bool { (r: Record) => r.itemId != id }

  function RecordId(): Record -> string { (r: Record) => r.itemId }

  /** A decision is put in front; the one before it for the same item goes, and the register stays bounded. */
  function Upsert(
      records: seq<Record>, item: Item, digest: string, draft: Draft, reviewedAt: Option<int>, now: int,
      trim: string -> string): Outcome
  {
    var reviewer, rationale := trim(draft.reviewer), trim(draft.rationale);
    if |reviewer| < 2 || |reviewer| > 80 then Refused(ReviewerInvalid)
    else if |rationale| < 8 || |rationale| > 2000 then Refused(RationaleInvalid)
    else if draft.validityDays !in {30, 90, 180, 365} then Refused(ValidityInvalid)
    else if !IsDigest(digest) then Refused(DigestInvalid)
    else if reviewedAt.None? then Refused(DateInvalid)
    else
      var record := RecordFor(item, digest, draft, reviewedAt.value, trim);
      if !ValidRecord(record, digest, now, trim) then Refused(RecordInvalid)
      else Kept(First([record] + Filter(records, NotOf(item.id)), REGISTER_LIMIT))
  }

  function Remove(records: seq<Record>, id: string, digest: string): Outcome {
    if !IsDigest(digest) then Refused(DigestInvalid) else Kept(Filter(records, NotOf(id)))
  }

  datatype Command =
    | Saving(item: Item, digest: string, draft: Draft, reviewedAt: Option<int>, now: int)
    | Removing(id: string, digest: string)

  function Execute(records: seq<Record>, command: Command, trim: string -> string): Outcome {
    match command
    case Saving(item, digest, draft, reviewedAt, now) => Upsert(records, item, digest, draft, reviewedAt, now, trim)
    case Removing(id, digest) => Remove(records, id, digest)
  }

  /** The register after the commands; a refused one leaves it alone. */
  function Run(commands: seq<Command>, trim: string -> string): seq<Record> {
    if commands == [] then []
    else
      var before := Run(commands[..|commands| - 1], trim);
      match Execute(before, commands[|commands| - 1], trim)
      case Kept(records) => records
      case Refused(_) => before
  }

  predicate Register(records: seq<Record>) { DistinctBy(records, RecordId()) && |records| <= 500 }

  lemma UpsertKeeps(records: seq<Record>, record: Record)
    requires Register(records)
    ensures Register(First([record] + Filter(records, NotOf(record.itemId)), REGISTER_LIMIT))
  {
    var rest := Filter(records, NotOf(record.itemId));
    FilterKeepsDistinct(records, NotOf(record.itemId), RecordId());
    FilterHolds(records, NotOf(record.itemId));
    assert forall i | 0 <= i < |rest| :: NotOf(record.itemId)(rest[i]);
  }

  /**
   A saved decision is valid and comes first; the decisions on other items stay,
   the oldest only while there is room.
   */
  lemma SavedExactly(
      records: seq<Record>, item: Item, digest: string, draft: Draft, reviewedAt: Option<int>, now: int,
      trim: string -> string, r: Record)
    ensures match Upsert(records, item, digest, draft, reviewedAt, now, trim)
            case Refused(_) => true
            case Kept(kept) =>
              && reviewedAt.Some? && kept != [] && kept[0] == RecordFor(item, digest, draft, reviewedAt.value, trim)
              && ValidRecord(kept[0], digest, now, trim) && draft.validityDays in {30, 90, 180, 365}
              && (r in kept && r != kept[0] ==> r in records && r.itemId != item.id)
              && (r in records && r.itemId != item.id && |Filter(records, NotOf(item.id))| < 500 ==>
                    r in kept)
  {
    FilterHas(records, NotOf(item.id), r);
    if reviewedAt.Some? {
      var all := [RecordFor(item, digest, draft, reviewedAt.value, trim)] + Filter(records, NotOf(item.id));
      assert |all| <= REGISTER_LIMIT ==> First(all, REGISTER_LIMIT) == all;
      assert all[0] == First(all, REGISTER_LIMIT)[0];
      assert r in all ==> r == all[0] || r in Filter(records, NotOf(item.id));
    }
  }

  /** Removing takes away the decisions on the item and nothing else. */
  lemma RemovedExactly(records: seq<Record>, id: string, digest: string, r: Record)
    ensures match Remove(records, id, digest)
            case Refused(refusal) => refusal == DigestInvalid && !IsDigest(digest)
            case Kept(kept) => r in kept <==> r in records && r.itemId != id
  {
    FilterHas(records, NotOf(id), r);
  }

  /** Whatever was saved and removed, no item has two decisions and the register is bounded. */
  lemma {:induction false} RegisterHolds(commands: seq<Command>, trim: string -> string)
    ensures Register(Run(commands, trim))
  {
    if commands != [] {
      var before, last := Run(commands[..|commands| - 1], trim), commands[|commands| - 1];
      RegisterHolds(commands[..|commands| - 1], trim);
      match last {
        case Saving(item, digest, draft, reviewedAt, now) =>
          if reviewedAt.Some? {
            UpsertKeeps(before, RecordFor(item, digest, draft, reviewedAt.value, trim));
          }
        case Removing(id, digest) =>
          FilterKeepsDistinct(before, NotOf(id), RecordId());
          FilterHolds(before, NotOf(id));
      }
    }
  }

  // ---------------------------------------------------------------- the state

  datatype State = State(items: seq<Item>, records: seq<Record>, expired: seq<Record>, stale: nat)

  /** Everything the record was decided on is still as it was. */
  predicate Fits(r: Record, m: Item, digest: string) {
    r.inventoryDigest == digest && r.itemId == m.id && r.subject == SubjectOf(m.item)
    && Join(r.componentIds) == Join(m.componentIds)
  }

  /** The item of this id; the last one, as a map built from the list has it. */
  function FindItem(items: seq<Item>, id: string): Option<Item> {
    if items == [] then None
    else if items[|items| - 1].id == id then Some(items[|items| - 1])
    else FindItem(items[..|items| - 1], id)
  }

  function Matching(items: seq<Item>, digest: string): Record -> bool {
    (r: Record) => FindItem(items, r.itemId).Some? && Fits(r, FindItem(items, r.itemId).value, digest)
  }

  function Active(now: int): Record -> bool { (r: Record) => r.expiresAt > now }

  function Expired(now: int): Record -> bool { (r: Record) => r.expiresAt <= now }

  function StateOf(items: seq<Item>, records: seq<Record>, digest: string, now: int): State {
    var matching := Filter(records, Matching(items, digest));
    FilterHolds(records, Matching(items, digest));
    State(items, Filter(matching, Active(now)), Filter(matching, Expired(now)), |records| - |matching|)
  }

  datatype Summary = Summary(
    total: nat, pending: int, approved: nat, restricted: nat, blocked: nat, expired: nat, stale: nat)

  function Decided(decision: Decision): Record -> nat { (r: Record) => if r.decision == decision then 1 else 0 }

  function Tally(records: seq<Record>, decision: Decision): nat { Sum(records, Decided(decision)) }

  method BuildLicenseReviewState(
      hash: Hash, order: Collation, plain: Collation, ds: seq<Dependency>, records: seq<Record>, digest: string,
      now: int)
    returns (state: State, summary: Summary)
    ensures state == StateOf(ReviewItems(hash, order, plain, ds), records, digest, now)
    ensures summary == Summary(
        |state.items|, |state.items| - |Unique(KeysOf(state.records, RecordId()))|, Tally(state.records, Approved),
        Tally(state.records, Restricted), Tally(state.records, Blocked), |state.expired|, state.stale)
  {
    var items := BuildLicenseReviewItems(hash, order, plain, ds);
    state := StateOf(items, records, digest, now);
    var approved, restricted, blocked := 0, 0, 0;
    for i := 0 to |state.records|
      invariant approved == Tally(state.records[..i], Approved)
      invariant restricted == Tally(state.records[..i], Restricted)
      invariant blocked == Tally(state.records[..i], Blocked)
    {
      assert state.records[..i + 1][..i] == state.records[..i];
      match state.records[i].decision {
        case Approved => approved := approved + 1;
        case Restricted => restricted := restricted + 1;
        case Blocked => blocked := blocked + 1;
      }
    }
    assert state.records[..|state.records|] == state.records;
    summary := Summary(
      |items|, |items| - |Unique(KeysOf(state.records, RecordId()))|, approved, restricted, blocked, |state.expired|,
      state.stale);
  }

  /** Every record is active, expired or stale. */
  lemma RecordsAddUp(items: seq<Item>, records: seq<Record>, digest: string, now: int)
    ensures var state := StateOf(items, records, digest, now);
      |records| == |state.records| + |state.expired| + state.stale
  {
    FilterHolds(records, Matching(items, digest));
    FilterSplits(Filter(records, Matching(items, digest)), Active(now), Expired(now));
  }

  lemma {:induction false} DecisionsAddUp(records: seq<Record>)
    ensures Tally(records, Approved) + Tally(records, Restricted) + Tally(records, Blocked) == |records|
  {
    if records != [] {
      DecisionsAddUp(records[..|records| - 1]);
    }
  }

  lemma {:induction false} FindItemHas(items: seq<Item>, id: string)
    ensures FindItem(items, id).Some? <==> id in KeysOf(items, OwnId())
    ensures FindItem(items, id).Some? ==> FindItem(items, id).value in items && FindItem(items, id).value.id == id
  {
    if items != [] {
      FindItemHas(items[..|items| - 1], id);
      assert KeysOf(items, OwnId()) == KeysOf(items[..|items| - 1], OwnId()) + [items[|items| - 1].id];
      assert items == items[..|items| - 1] + [items[|items| - 1]];
    }
  }

  /** Every item is pending or decided one way, as long as neither items nor decisions are repeated. */
  lemma ItemsAddUp(items: seq<Item>, records: seq<Record>, digest: string, now: int)
    requires DistinctBy(items, OwnId()) && DistinctBy(records, RecordId())
    ensures var active := StateOf(items, records, digest, now).records;
      var pending := |items| - |Unique(KeysOf(active, RecordId()))|;
      && pending >= 0
      && |items| == pending + Tally(active, Approved) + Tally(active, Restricted) + Tally(active, Blocked)
  {
    var matching := Filter(records, Matching(items, digest));
    var active := Filter(matching, Active(now));
    FilterKeepsDistinct(records, Matching(items, digest), RecordId());
    FilterKeepsDistinct(matching, Active(now), RecordId());
    DecisionsAddUp(active);
    var ids := KeysOf(active, RecordId());
    UniqueOfDistinct(ids);
    forall i | 0 <= i < |ids| ensures ids[i] in KeysOf(items, OwnId()) {
      FilterHas(matching, Active(now), active[i]);
      FilterHas(records, Matching(items, digest), active[i]);
      FindItemHas(items, active[i].itemId);
    }
    DistinctFits(ids, KeysOf(items, OwnId()));
  }

  /** For the items of any packages and the register after any commands the summary's numbers add up. */
  lemma SummaryAddsUp(
      hash: Hash, order: Collation, plain: Collation, ds: seq<Dependency>, commands: seq<Command>,
      trim: string -> string, digest: string, now: int)
    ensures var items, records := ReviewItems(hash, order, plain, ds), Run(commands, trim);
      var state := StateOf(items, records, digest, now);
      var pending := |items| - |Unique(KeysOf(state.records, RecordId()))|;
      && pending >= 0
      && |items| == pending + Tally(state.records, Approved) + Tally(state.records, Restricted)
                    + Tally(state.records, Blocked)
      && |records| == |state.records| + |state.expired| + state.stale
  {
    hide ReviewItems, Run, Tally;
    ItemsPartition(hash, order, plain, ds);
    RegisterHolds(commands, trim);
    ItemsAddUp(ReviewItems(hash, order, plain, ds), Run(commands, trim), digest, now);
    RecordsAddUp(ReviewItems(hash, order, plain, ds), Run(commands, trim), digest, now);
  }

  // ---------------------------------------------------------------- the gate

  datatype Action = Allow | Warn | Block

  datatype Status = Pass | Warning | Fail

  function Strictness(a: Action): nat { match a case Allow => 0 case Warn => 1 case Block => 2 }

  function Severity(s: Status): nat { match s case Pass => 0 case Warning => 1 case Fail => 2 }

  function StatusForPolicy(count: nat, action: Action): Status {
    if count == 0 || action.Allow? then Pass else if action.Block? then Fail else Warning
  }

  /** The decision on this item; the last record counts, as in a map built from the list. */
  function DecisionOf(records: seq<Record>, id: string): Option<Decision> {
    if records == [] then None
    else if records[|records| - 1].itemId == id then Some(records[|records| - 1].decision)
    else DecisionOf(records[..|records| - 1], id)
  }

  function OfClass(licenseClass: LicenseClass): Item -> bool { (m: Item) => m.item.licenseClass == licenseClass }

  function DecidedAs(records: seq<Record>, decision: Decision): Item -> nat {
    (m: Item) => if DecisionOf(records, m.id) == Some(decision) then 1 else 0
  }

  function Standing(pending: int, restricted: nat, blocked: nat, action: Action): Status {
    if blocked > 0 then Fail
    else if pending > 0 then if action.Block? then Fail else Warning
    else if restricted > 0 then Warning
    else Pass
  }

  function ClassStanding(items: seq<Item>, records: seq<Record>, action: Action): Status {
    var approved, restricted, blocked :=
      Sum(items, DecidedAs(records, Approved)), Sum(items, DecidedAs(records, Restricted)),
      Sum(items, DecidedAs(records, Blocked));
    Standing(|items| - approved - restricted - blocked, restricted, blocked, action)
  }

  function GateStatus(licenseClass: LicenseClass, rawCount: nat, action: Action, state: Option<State>): Status {
    if rawCount == 0 then Pass
    else if state.None? then StatusForPolicy(rawCount, action)
    else ClassStanding(Filter(state.value.items, OfClass(licenseClass)), state.value.records, action)
  }

  method ReviewedLicenseGate(licenseClass: LicenseClass, rawCount: nat, action: Action, state: Option<State>)
    returns (status: Status)
    ensures status == GateStatus(licenseClass, rawCount, action, state)
  {
    if rawCount == 0 {
      return Pass;
    }
    if state.None? {
      return StatusForPolicy(rawCount, action);
    }
    var items, records := Filter(state.value.items, OfClass(licenseClass)), state.value.records;
    var approved, restricted, blocked := 0, 0, 0;
    for i := 0 to |items|
      invariant approved == Sum(items[..i], DecidedAs(records, Approved))
      invariant restricted == Sum(items[..i], DecidedAs(records, Restricted))
      invariant blocked == Sum(items[..i], DecidedAs(records, Blocked))
    {
      assert items[..i + 1][..i] == items[..i];
      var decision := DecisionOf(records, items[i].id);
      if decision == Some(Approved) { approved := approved + 1; }
      if decision == Some(Restricted) { restricted := restricted + 1; }
      if decision == Some(Blocked) { blocked := blocked + 1; }
    }
    assert items[..|items|] == items;
    var undecided := |items| - approved - restricted - blocked;
    var pending := if undecided > 0 then undecided else 0;
    status := if blocked > 0 then Fail
              else if pending > 0 then if action.Block? then Fail else Warning
              else if restricted > 0 then Warning
              else Pass;
  }

  /** A stricter policy never lowers the severity. */
  lemma StricterIsNoMilder(licenseClass: LicenseClass, rawCount: nat, a: Action, b: Action, state: Option<State>)
    requires Strictness(a) <= Strictness(b)
    ensures Severity(GateStatus(licenseClass, rawCount, a, state))
         <= Severity(GateStatus(licenseClass, rawCount, b, state))
  {
  }

  lemma {:induction false} SumAtLeast<T>(s: seq<T>, i: nat, f: T -> nat)
    requires i < |s|
    ensures Sum(s, f) >= f(s[i])
  {
    if i < |s| - 1 {
      SumAtLeast(s[..|s| - 1], i, f);
    }
  }

  /** One blocked item of the class is enough for the gate to fail, whatever the policy. */
  lemma BlockedFails(licenseClass: LicenseClass, rawCount: nat, action: Action, state: State, m: Item)
    requires rawCount > 0 && m in state.items && m.item.licenseClass == licenseClass
    requires DecisionOf(state.records, m.id) == Some(Blocked)
    ensures GateStatus(licenseClass, rawCount, action, Some(state)) == Fail
  {
    var items := Filter(state.items, OfClass(licenseClass));
    FilterHas(state.items, OfClass(licenseClass), m);
    var i :| 0 <= i < |items| && items[i] == m;
    SumAtLeast(items, i, DecidedAs(state.records, Blocked));
  }

  lemma {:induction false} SumGrows<T>(s: seq<T>, f: T -> nat, g: T -> nat)
    requires forall x :: f(x) <= g(x)
    ensures Sum(s, f) <= Sum(s, g)
  {
    if s != [] {
      SumGrows(s[..|s| - 1], f, g);
    }
  }

  /** Approving what was undecided leaves every class as severe as it was, or less so. */
  lemma ApprovalIsNoHarsher(items: seq<Item>, before: seq<Record>, after: seq<Record>, id: string, action: Action)
    requires DecisionOf(before, id) == None && DecisionOf(after, id) in {None, Some(Approved)}
    requires forall other :: other != id ==> DecisionOf(after, other) == DecisionOf(before, other)
    ensures Severity(ClassStanding(items, after, action)) <= Severity(ClassStanding(items, before, action))
  {
    SumGrows(items, DecidedAs(before, Approved), DecidedAs(after, Approved));
    SumSame(items, DecidedAs(before, Restricted), items, DecidedAs(after, Restricted));
    SumSame(items, DecidedAs(before, Blocked), items, DecidedAs(after, Blocked));
  }

  lemma {:induction false} FilterCommutes<T>(s: seq<T>, p: T -> bool, q: T -> bool)
    ensures Filter(Filter(s, p), q) == Filter(Filter(s, q), p)
  {
    if s != [] {
      var init, last := s[..|s| - 1], s[|s| - 1];
      FilterCommutes(init, p, q);
      FilterNext(Filter(init, p), last, q);
      FilterNext(Filter(init, q), last, p);
    }
  }

  lemma FilterNext<T>(s: seq<T>, x: T, keep: T -> bool)
    ensures Filter(s + [x], keep) == Filter(s, keep) + if keep(x) then [x] else []
  {
    assert (s + [x])[..|s|] == s;
  }

  lemma {:induction false} FilterFront<T>(x: T, s: seq<T>, keep: T -> bool)
    ensures Filter([x] + s, keep) == (if keep(x) then [x] else []) + Filter(s, keep)
  {
    if s == [] {
      assert [x] + s == [x] && [x][..0] == [];
    } else {
      FilterFront(x, s[..|s| - 1], keep);
      assert ([x] + s)[..|s|] == [x] + s[..|s| - 1];
    }
  }

  lemma {:induction false} DecisionWithout(records: seq<Record>, id: string, other: string)
    ensures DecisionOf(Filter(records, NotOf(id)), other) == if other == id then None else DecisionOf(records, other)
  {
    if records != [] {
      DecisionWithout(records[..|records| - 1], id, other);
      var rest := Filter(records[..|records| - 1], NotOf(id));
      assert (rest + [records[|records| - 1]])[..|rest|] == rest;
    }
  }

  lemma {:induction false} DecisionBehind(record: Record, records: seq<Record>, other: string)
    ensures DecisionOf([record] + records, other)
      == if DecisionOf(records, other).Some? then DecisionOf(records, other)
         else if record.itemId == other then Some(record.decision) else None
  {
    if records == [] {
      assert [record] + records == [record] && [record][..0] == [];
    } else {
      DecisionBehind(record, records[..|records| - 1], other);
      assert ([record] + records)[..|records|] == [record] + records[..|records| - 1];
    }
  }

  /** What is active once a record was put in front of those for other items. */
  lemma ActiveAfter(items: seq<Item>, records: seq<Record>, record: Record, digest: string, now: int)
    ensures var kept := [record] + Filter(records, NotOf(record.itemId));
      var before := StateOf(items, records, digest, now).records;
      var after := StateOf(items, kept, digest, now).records;
      after == Filter(before, NotOf(record.itemId))
      || after == [record] + Filter(before, NotOf(record.itemId))
  {
    var not, fits, lives := NotOf(record.itemId), Matching(items, digest), Active(now);
    FilterFront(record, Filter(records, not), fits);
    FilterCommutes(records, not, fits);
    FilterCommutes(Filter(records, fits), not, lives);
    var rest := Filter(Filter(records, fits), not);
    if fits(record) {
      FilterFront(record, rest, lives);
    }
    assert [] + rest == rest && [] + Filter(rest, lives) == Filter(rest, lives);
  }

  /** Putting a record in front changes the decision on its own item only. */
  lemma DecisionAfter(
      items: seq<Item>, records: seq<Record>, record: Record, digest: string, now: int, other: string)
    ensures var kept := [record] + Filter(records, NotOf(record.itemId));
      var before := StateOf(items, records, digest, now).records;
      var after := StateOf(items, kept, digest, now).records;
      if other == record.itemId then DecisionOf(after, other) in {None, Some(record.decision)}
      else DecisionOf(after, other) == DecisionOf(before, other)
  {
    var before := StateOf(items, records, digest, now).records;
    ActiveAfter(items, records, record, digest, now);
    DecisionWithout(before, record.itemId, other);
    DecisionBehind(record, Filter(before, NotOf(record.itemId)), other);
  }

  lemma ApprovalOfPending(
      items: seq<Item>, records: seq<Record>, record: Record, digest: string, now: int, licenseClass: LicenseClass,
      action: Action)
    requires record.decision == Approved
    requires DecisionOf(StateOf(items, records, digest, now).records, record.itemId) == None
    ensures var kept := [record] + Filter(records, NotOf(record.itemId));
      var before := StateOf(items, records, digest, now).records;
      var after := StateOf(items, kept, digest, now).records;
      var mine := Filter(items, OfClass(licenseClass));
      Severity(ClassStanding(mine, after, action)) <= Severity(ClassStanding(mine, before, action))
  {
    var kept := [record] + Filter(records, NotOf(record.itemId));
    var before := StateOf(items, records, digest, now).records;
    var after := StateOf(items, kept, digest, now).records;
    forall other
      ensures other != record.itemId ==> DecisionOf(after, other) == DecisionOf(before, other)
      ensures DecisionOf(after, record.itemId) in {None, Some(Approved)}
    {
      DecisionAfter(items, records, record, digest, now, other);
      DecisionAfter(items, records, record, digest, now, record.itemId);
    }
    ApprovalIsNoHarsher(Filter(items, OfClass(licenseClass)), before, after, record.itemId, action);
  }

  /** Approving a pending item never raises the severity of any class while the register has room. */
  lemma ApprovingPendingIsNoHarsher(
      items: seq<Item>, records: seq<Record>, m: Item, draft: Draft, reviewedAt: Option<int>, digest: string, now: int,
      trim: string -> string, licenseClass: LicenseClass, rawCount: nat, action: Action)
    requires draft.decision == Approved && |Filter(records, NotOf(m.id))| < 500
    requires DecisionOf(StateOf(items, records, digest, now).records, m.id) == None
    ensures match Upsert(records, m, digest, draft, reviewedAt, now, trim)
            case Refused(_) => true
            case Kept(kept) =>
              var before, after := StateOf(items, records, digest, now), StateOf(items, kept, digest, now);
              Severity(GateStatus(licenseClass, rawCount, action, Some(after)))
              <= Severity(GateStatus(licenseClass, rawCount, action, Some(before)))
  {
    if reviewedAt.Some? {
      var record := RecordFor(m, digest, draft, reviewedAt.value, trim);
      var kept := [record] + Filter(records, NotOf(m.id));
      ApprovalOfPending(items, records, record, digest, now, licenseClass, action);
      assert First(kept, REGISTER_LIMIT) == kept;
    }
  }
}
