/** From a dependency inventory to the packages of a snapshot. */
module DependencyInventory {
  import opened Options
  import opened Sequences
  import opened Merging
  import opened SupplyChainDiff

  /** One package as one component depends on it; reasons are the parts of its comma-separated reason. */
  datatype Dependency = Dependency(
    componentId: string, ecosystem: Ecosystem, name: string, version: string, license: string,
    licenseClass: LicenseClass, source: string, integrity: string, integrityPresent: bool,
    direct: bool, development: bool, reasons: seq<string>)

  /** The package as several components share it. */
  datatype SharedPackage = SharedPackage(item: Dependency, componentIds: seq<string>)

  function KeyOfDependency(d: Dependency): string { Lineage(d.ecosystem, d.name) + [NUL] + d.version }

  function DependencyKey(): Dependency -> string { (d: Dependency) => KeyOfDependency(d) }

  function SharedKey(): SharedPackage -> string { (m: SharedPackage) => KeyOfDependency(m.item) }

  function WithId(ids: seq<string>, id: string): seq<string> { if id in ids then ids else ids + [id] }

  function StartPackage(): Dependency -> SharedPackage { (d: Dependency) => SharedPackage(d, [d.componentId]) }

  /** Flags are gathered; a text is filled in where it was missing. */
  function AddPackage(): (SharedPackage, Dependency) -> SharedPackage {
    (m: SharedPackage, d: Dependency) =>
      SharedPackage(
        m.item.(direct := m.item.direct || d.direct,
                development := m.item.development || d.development,
                license := if m.item.license == "" then d.license else m.item.license,
                integrity := if m.item.integrity == "" then d.integrity else m.item.integrity,
                integrityPresent := m.item.integrityPresent || d.integrityPresent),
        WithId(m.componentIds, d.componentId))
  }

  function SharedOrder(order: Collation): (SharedPackage, SharedPackage) -> int {
    (x: SharedPackage, y: SharedPackage) =>
      Or(order(EcosystemName(x.item.ecosystem), EcosystemName(y.item.ecosystem)),
         Or(order(x.item.name, y.item.name), order(x.item.version, y.item.version)))
  }

  function SharedPackages(order: Collation, ds: seq<Dependency>): seq<SharedPackage> {
    Sort(Records(ds, DependencyKey(), StartPackage(), AddPackage()), SharedOrder(order))
  }

  method UniqueDependencyPackages(order: Collation, ds: seq<Dependency>) returns (r: seq<SharedPackage>)
    ensures r == SharedPackages(order, ds)
  {
    var records := Merge(ds, DependencyKey(), StartPackage(), AddPackage());
    r := Sort(records, SharedOrder(order));
  }

  /** What one of the components can say about a package. */
  datatype Flag = IsDirect | IsDevelopment | HasIntegrity | HasLicense | UsedBy(id: string)

  predicate Has(d: Dependency, flag: Flag) {
    match flag
    case IsDirect => d.direct
    case IsDevelopment => d.development
    case HasIntegrity => d.integrityPresent
    case HasLicense => d.license != ""
    case UsedBy(id) => d.componentId == id
  }

  predicate SharedHas(m: SharedPackage, flag: Flag) {
    match flag
    case IsDirect => m.item.direct
    case IsDevelopment => m.item.development
    case HasIntegrity => m.item.integrityPresent
    case HasLicense => m.item.license != ""
    case UsedBy(id) => id in m.componentIds
  }

  function Having(flag: Flag): Dependency -> bool { (d: Dependency) => Has(d, flag) }

  function SharedHaving(flag: Flag): SharedPackage -> bool { (m: SharedPackage) => SharedHas(m, flag) }

  /** A shared package has what some component says of it, and nothing else. */
  lemma SharedFlags(ds: seq<Dependency>, key: string, flag: Flag)
    ensures match MergedAt(ds, DependencyKey(), StartPackage(), AddPackage(), key)
            case None => !SomeSets(ds, DependencyKey(), key, Having(flag))
            case Some(m) => SharedHas(m, flag) <==> SomeSets(ds, DependencyKey(), key, Having(flag))
  {
    MergedAny(ds, DependencyKey(), StartPackage(), AddPackage(), key, Having(flag), SharedHaving(flag));
  }

  function First<T>(s: seq<T>, n: nat): seq<T> { if |s| <= n then s else s[..n] }

  /** The package as the snapshot keeps it; identifiers are sorted by the language's own order of strings. */
  function SnapshotPackage(m: SharedPackage, plain: Collation, advisories: map<string, seq<string>>): Package {
    var key := KeyOfDependency(m.item);
    Package(m.item.ecosystem, m.item.name, m.item.version, First(m.item.license, MAX_TEXT), m.item.licenseClass,
            m.item.direct, m.item.development, m.item.integrityPresent,
            First(Sort(m.componentIds, plain), MAX_IDS),
            First(Sort(if key in advisories then advisories[key] else [], plain), MAX_IDS))
  }

  function SnapshotPackages(
      order: Collation, plain: Collation, advisories: map<string, seq<string>>, ds: seq<Dependency>): seq<Package>
  {
    var shared := SharedPackages(order, ds);
    Sort(seq(|shared|, i requires 0 <= i < |shared| => SnapshotPackage(shared[i], plain, advisories)),
         PackageOrder(order))
  }

  /** No two packages of a snapshot have the same key. */
  lemma SnapshotKeysAreDistinct(
      order: Collation, plain: Collation, advisories: map<string, seq<string>>, ds: seq<Dependency>)
    ensures Distinct(Keys(SnapshotPackages(order, plain, advisories, ds)))
  {
    var records, shared := Records(ds, DependencyKey(), StartPackage(), AddPackage()), SharedPackages(order, ds);
    RecordsPartition(ds, DependencyKey(), StartPackage(), AddPackage(), SharedKey());
    SortKeepsDistinct(records, SharedOrder(order), SharedKey());
    var packages := seq(|shared|, i requires 0 <= i < |shared| => SnapshotPackage(shared[i], plain, advisories));
    var keyOf := (p: Package) => PackageKey(p);
    assert forall i | 0 <= i < |shared| :: keyOf(packages[i]) == SharedKey()(shared[i]);
    SortKeepsDistinct(packages, PackageOrder(order), keyOf);
    var sorted := Sort(packages, PackageOrder(order));
    assert forall i | 0 <= i < |sorted| :: Keys(sorted)[i] == keyOf(sorted[i]);
  }
}
