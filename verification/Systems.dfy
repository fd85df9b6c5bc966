/**
 The live system a manifest is checked against, and one verification run: files,
 declared packages and services, and whatever the snapshots do not authorize.
 */
module Systems {
  import opened Wrappers
  import opened Manifests
  import opened Sequences
  import opened FileChecks
  import Pool

  /** Installed packages in listing order; a package manager reports a version for each. */
  datatype Package = Package(name: Name, version: Name)

  /**
   Services. `present` says whether there is a systemctl at all, `listable` whether
   listing works; for a unit in `hidden` every state query is refused.
   */
  datatype Units = Units(present: bool, listable: bool, active: seq<Name>, enabled: set<string>, hidden: set<string>)

  datatype System = System(fs: FileSystem, packages: seq<Package>, packagesListable: bool, units: Units)

  datatype Verb = IsActive | IsEnabled

  datatype Deviation =
    | OfFile(file: FileDeviation)
    | MissingPackage(name: string)
    | VersionMismatch(name: string, have: string, want: string)
    | InactiveService(name: string)
    | DisabledService(name: string)
    | UnverifiableService(name: string, verb: Verb)
    | UnauthorizedPackage(name: string)
    | UnauthorizedService(name: string)

  // ---- queries ----

  function LookupVersion(packages: seq<Package>, name: string): Option<Name> {
    if packages == [] then None
    else if packages[0].name == name then Some(packages[0].version)
    else LookupVersion(packages[1..], name)
  }

  function Names(packages: seq<Package>): (r: seq<string>)
    ensures |r| == |packages| && forall i :: 0 <= i < |r| ==> r[i] == packages[i].name
  {
    seq(|packages|, i requires 0 <= i < |packages| => packages[i].name)
  }

  function ListPackages(s: System): Option<seq<string>> {
    if s.packagesListable then Some(Names(s.packages)) else None
  }

  /** Without systemctl there are no services; a failing listing is an error. */
  function ListActive(u: Units): Option<seq<string>> {
    if !u.present then Some([]) else if u.listable then Some(u.active) else None
  }

  /** The exit code of a systemctl state query. */
  function ExitCode(u: Units, verb: Verb, name: string): int {
    if name in u.hidden then 4
    else match verb
      case IsActive => if name in u.active then 0 else 3
      case IsEnabled => if name in u.enabled then 0 else 1
  }

  /** Whether the query succeeds, which is how a state counts as confirmed. */
  predicate Confirms(u: Units, verb: Verb, name: string) {
    u.present && ExitCode(u, verb, name) == 0
  }

  // ---- unauthorized entries ----

  /** The elements of `current` outside `allowed`, in order. */
  function Outside(allowed: set<string>, current: seq<string>): seq<string> {
    if current == [] then []
    else (if current[0] in allowed then [] else [current[0]]) + Outside(allowed, current[1..])
  }

  lemma {:induction false} OutsideMembers(allowed: set<string>, current: seq<string>)
    ensures forall x :: x in Outside(allowed, current) <==> x in current && x !in allowed
    ensures IsSubsequence(Outside(allowed, current), current)
  {
    if current != [] {
      var rest := Outside(allowed, current[1..]);
      OutsideMembers(allowed, current[1..]);
      assert forall x :: x in current <==> x == current[0] || x in current[1..];
      if current[0] in allowed {
        assert Outside(allowed, current) == rest;
      } else {
        assert Outside(allowed, current)[1..] == rest;
      }
    }
  }

  method UnauthorizedSet(allowed: seq<string>, current: seq<string>) returns (out: seq<string>)
    ensures out == Outside(Elements(allowed), current)
  {
    var allow: set<string> := {};
    for i := 0 to |allowed|
      invariant allow == Elements(allowed[..i])
    {
      assert allowed[..i + 1] == allowed[..i] + [allowed[i]];
      allow := allow + {allowed[i]};
    }
    assert allowed[..|allowed|] == allowed;
    out := [];
    for i := 0 to |current|
      invariant out + Outside(allow, current[i..]) == Outside(allow, current)
    {
      assert current[i..][1..] == current[i + 1..];
      if current[i] !in allow {
        out := out + [current[i]];
      }
    }
  }

  // ---- declared packages and services ----

  function CheckPackage(packages: seq<Package>, p: ManifestPackage): seq<Deviation> {
    match LookupVersion(packages, p.name)
    case None => [MissingPackage(p.name)]
    case Some(have) => if p.version != "" && have != p.version then [VersionMismatch(p.name, have, p.version)] else []
  }

  function MapSystemctlState(name: string, verb: Verb, code: int): seq<Deviation> {
    if code == 0 then []
    else if code == 4 then [UnverifiableService(name, verb)]
    else [match verb case IsActive => InactiveService(name) case IsEnabled => DisabledService(name)]
  }

  function CheckService(u: Units, s: ManifestService): seq<Deviation> {
    if !u.present then []
    else
      (if s.running then MapSystemctlState(s.name, IsActive, ExitCode(u, IsActive, s.name)) else [])
      + (if s.enabled then MapSystemctlState(s.name, IsEnabled, ExitCode(u, IsEnabled, s.name)) else [])
  }

  function PackageDeviations(packages: seq<Package>, declared: seq<ManifestPackage>): seq<Deviation> {
    if declared == [] then [] else CheckPackage(packages, declared[0]) + PackageDeviations(packages, declared[1..])
  }

  function ServiceDeviations(u: Units, declared: seq<ManifestService>): seq<Deviation> {
    if declared == [] then [] else CheckService(u, declared[0]) + ServiceDeviations(u, declared[1..])
  }

  /** An empty snapshot, or a listing that fails, disables the check. */
  function Unlisted(snapshot: seq<string>, listing: Option<seq<string>>): seq<string> {
    if snapshot == [] || listing.None? then [] else Outside(Elements(snapshot), listing.value)
  }

  function PackageTag(name: string): Deviation {
    UnauthorizedPackage(name)
  }

  function ServiceTag(name: string): Deviation {
    UnauthorizedService(name)
  }

  function Tag(names: seq<string>, tag: string -> Deviation): (r: seq<Deviation>)
    ensures |r| == |names| && forall i :: 0 <= i < |r| ==> r[i] == tag(names[i])
  {
    seq(|names|, i requires 0 <= i < |names| => tag(names[i]))
  }

  function UnauthorizedPackages(s: System, snapshot: seq<string>): seq<Deviation> {
    Tag(Unlisted(snapshot, ListPackages(s)), PackageTag)
  }

  function UnauthorizedServices(u: Units, snapshot: seq<string>): seq<Deviation> {
    Tag(Unlisted(snapshot, ListActive(u)), ServiceTag)
  }

  function FileDeviations(fs: FileSystem, files: seq<ManifestFile>, checks: seq<string>, fast: bool)
    : (r: seq<Deviation>)
    requires AllCheckable(files)
    ensures |r| == |CheckInOrder(fs, files, checks, fast)|
  {
    var found := CheckInOrder(fs, files, checks, fast);
    seq(|found|, i requires 0 <= i < |found| => OfFile(found[i]))
  }

  // ---- one verification ----

  /** The entries on which no assertion of the checker trips. */
  ghost predicate IsWellFormed(m: Manifest) {
    && AllCheckable(m.files.Items())
    && (forall p :: p in m.packages.Items() ==> p.name != "")
    && (forall s :: s in m.services.Items() ==> s.name != "")
  }

  function Deviations(s: System, m: Manifest, checks: seq<string>, fast: bool): seq<Deviation>
    requires IsWellFormed(m)
  {
    FileDeviations(s.fs, m.files.Items(), checks, fast)
    + PackageDeviations(s.packages, m.packages.Items())
    + ServiceDeviations(s.units, m.services.Items())
    + UnauthorizedPackages(s, m.packageSnapshot.Items())
    + UnauthorizedServices(s.units, m.serviceSnapshot.Items())
  }

  datatype Verdict = Clean | Drift(deviations: seq<Deviation>) | NoManifest

  method CheckPackages(packages: seq<Package>, declared: seq<ManifestPackage>) returns (deviations: seq<Deviation>)
    ensures deviations == PackageDeviations(packages, declared)
  {
    deviations := [];
    for i := 0 to |declared|
      invariant deviations + PackageDeviations(packages, declared[i..]) == PackageDeviations(packages, declared)
    {
      assert declared[i..][1..] == declared[i + 1..];
      Shift(deviations, CheckPackage(packages, declared[i]), PackageDeviations(packages, declared[i + 1..]));
      deviations := deviations + CheckPackage(packages, declared[i]);
    }
  }

  method CheckServices(u: Units, declared: seq<ManifestService>) returns (deviations: seq<Deviation>)
    ensures deviations == ServiceDeviations(u, declared)
  {
    deviations := [];
    for i := 0 to |declared|
      invariant deviations + ServiceDeviations(u, declared[i..]) == ServiceDeviations(u, declared)
    {
      assert declared[i..][1..] == declared[i + 1..];
      Shift(deviations, CheckService(u, declared[i]), ServiceDeviations(u, declared[i + 1..]));
      deviations := deviations + CheckService(u, declared[i]);
    }
  }

  method CheckUnauthorized(snapshot: seq<string>, listing: Option<seq<string>>, tag: string -> Deviation)
    returns (deviations: seq<Deviation>)
    ensures deviations == Tag(Unlisted(snapshot, listing), tag)
  {
    deviations := [];
    if |snapshot| == 0 || listing.None? {
      return;
    }
    var found := UnauthorizedSet(snapshot, listing.value);
    for i := 0 to |found|
      invariant deviations == Tag(found, tag)[..i]
    {
      deviations := deviations + [tag(found[i])];
    }
  }

  function VerdictOf(deviations: seq<Deviation>): Verdict {
    if deviations == [] then Clean else Drift(deviations)
  }

  /** One run over a manifest that was loaded, or could not be, under any schedule of the file pool. */
  method RunManifest(s: System, loaded: Option<Manifest>, configured: seq<string>, fast: bool, procs: int,
                     steps: seq<Pool.Step>)
    returns (v: Verdict)
    requires loaded.Some? ==> IsWellFormed(loaded.value)
    requires loaded.Some? ==>
               Pool.IsComplete(CheckPool(s.fs, loaded.value.files.Items(), Effective(configured), fast, procs), steps)
    ensures v == if loaded.None? then NoManifest
                 else VerdictOf(Deviations(s, loaded.value, Effective(configured), fast))
  {
    if loaded.None? {
      return NoManifest;
    }
    var m := loaded.value;
    var found := CheckFiles(s.fs, m.files.Items(), Effective(configured), fast, procs, steps);
    var files := seq(|found|, i requires 0 <= i < |found| => OfFile(found[i]));
    assert files == FileDeviations(s.fs, m.files.Items(), Effective(configured), fast);
    var packages := CheckPackages(s.packages, m.packages.Items());
    var services := CheckServices(s.units, m.services.Items());
    var extraPackages := CheckUnauthorized(m.packageSnapshot.Items(), ListPackages(s), PackageTag);
    var extraServices := CheckUnauthorized(m.serviceSnapshot.Items(), ListActive(s.units), ServiceTag);
    var deviations := files + packages + services + extraPackages + extraServices;
    v := if |deviations| > 0 then Drift(deviations) else Clean;
  }

  /** The one-shot check: the default check set, in full. */
  method CheckLocal(s: System, loaded: Option<Manifest>, procs: int, steps: seq<Pool.Step>) returns (v: Verdict)
    requires loaded.Some? ==> IsWellFormed(loaded.value)
    requires loaded.Some? ==>
               Pool.IsComplete(CheckPool(s.fs, loaded.value.files.Items(), DEFAULT_CHECKS, false, procs), steps)
    ensures v == if loaded.None? then NoManifest else VerdictOf(Deviations(s, loaded.value, DEFAULT_CHECKS, false))
  {
    v := RunManifest(s, loaded, [], false, procs, steps);
  }

  // ---- when parts of a verification are clean ----

  lemma {:induction false} PackagesCleanIff(packages: seq<Package>, declared: seq<ManifestPackage>)
    ensures PackageDeviations(packages, declared) == [] <==>
            forall p :: p in declared ==> CheckPackage(packages, p) == []
  {
    if declared != [] {
      PackagesCleanIff(packages, declared[1..]);
      assert forall p :: p in declared <==> p == declared[0] || p in declared[1..];
    }
  }

  lemma {:induction false} ServicesCleanIff(u: Units, declared: seq<ManifestService>)
    ensures ServiceDeviations(u, declared) == [] <==> forall d :: d in declared ==> CheckService(u, d) == []
  {
    if declared != [] {
      ServicesCleanIff(u, declared[1..]);
      assert forall d :: d in declared <==> d == declared[0] || d in declared[1..];
    }
  }

  lemma UnlistedEmptyIff(snapshot: seq<string>, listing: Option<seq<string>>)
    ensures Unlisted(snapshot, listing) == [] <==>
            snapshot == [] || listing.None? || forall x :: x in listing.value ==> x in snapshot
  {
    if snapshot != [] && listing.Some? {
      OutsideMembers(Elements(snapshot), listing.value);
      var out := Outside(Elements(snapshot), listing.value);
      if out != [] {
        assert out[0] in out;
      }
    }
  }

  // ---- what a verification reports ----

  /** A lookup finds the first package of that name. */
  lemma {:induction false} LookupIsFirst(packages: seq<Package>, name: string, version: Name)
    ensures LookupVersion(packages, name) == Some(version) <==>
            exists i: nat :: i < |packages| && IsFirst(packages, i, name, version)
    ensures LookupVersion(packages, name).None? <==> forall p :: p in packages ==> p.name != name
  {
    if packages != [] {
      LookupIsFirst(packages[1..], name, version);
      if i: nat :| i < |packages[1..]| && IsFirst(packages[1..], i, name, version) && packages[0].name != name {
        assert forall j :: 0 < j < i + 1 ==> packages[j] == packages[1..][j - 1];
        assert IsFirst(packages, i + 1, name, version);
      }
      if i: nat :| i < |packages| && IsFirst(packages, i, name, version) {
        if i > 0 {
          assert packages[0].name != name;
          assert forall j :: 0 <= j < i - 1 ==> packages[1..][j] == packages[j + 1];
          assert IsFirst(packages[1..], i - 1, name, version);
        }
      }
      if packages[0].name == name && packages[0].version == version {
        assert IsFirst(packages, 0, name, version);
      }
      assert forall p :: p in packages <==> p == packages[0] || p in packages[1..];
    }
  }

  ghost predicate IsFirst(packages: seq<Package>, i: nat, name: string, version: Name)
    requires i < |packages|
  {
    packages[i].name == name && packages[i].version == version && forall j :: 0 <= j < i ==> packages[j].name != name
  }

  /** A declaration asks for this state of this service. */
  ghost predicate Wants(declared: seq<ManifestService>, name: string, verb: Verb) {
    exists d :: d in declared && d.name == name && match verb { case IsActive => d.running case IsEnabled => d.enabled }
  }

  /**
   What each deviation says. A state is unverifiable exactly when systemctl refuses
   the query, and then neither inactive nor disabled is claimed.
   */
  ghost predicate IsDeviation(s: System, m: Manifest, checks: seq<string>, fast: bool, d: Deviation)
    requires IsWellFormed(m)
  {
    match d
    case OfFile(FileDeviation(issue, path)) =>
      exists f :: f in m.files.Items() && f.path == path && CheckFile(s.fs, f, checks, fast) == Some(issue)
    case MissingPackage(name) =>
      (exists p :: p in m.packages.Items() && p.name == name) && forall p :: p in s.packages ==> p.name != name
    case VersionMismatch(name, have, want) =>
      && ManifestPackage(name, want) in m.packages.Items() && want != "" && have != want
      && have != "" && LookupVersion(s.packages, name) == Some(have)
    case InactiveService(name) =>
      && s.units.present && name !in s.units.hidden && name !in s.units.active
      && Wants(m.services.Items(), name, IsActive)
    case DisabledService(name) =>
      && s.units.present && name !in s.units.hidden && name !in s.units.enabled
      && Wants(m.services.Items(), name, IsEnabled)
    case UnverifiableService(name, verb) =>
      s.units.present && name in s.units.hidden && Wants(m.services.Items(), name, verb)
    case UnauthorizedPackage(name) =>
      && m.packageSnapshot.Items() != [] && name !in m.packageSnapshot.Items()
      && s.packagesListable && exists p :: p in s.packages && p.name == name
    case UnauthorizedService(name) =>
      && m.serviceSnapshot.Items() != [] && name !in m.serviceSnapshot.Items()
      && s.units.present && s.units.listable && name in s.units.active
  }

  lemma {:induction false} PackageDeviationsIff(packages: seq<Package>, declared: seq<ManifestPackage>, d: Deviation)
    ensures d in PackageDeviations(packages, declared) <==> exists p :: p in declared && d in CheckPackage(packages, p)
  {
    if declared != [] {
      PackageDeviationsIff(packages, declared[1..], d);
      assert forall p :: p in declared <==> p == declared[0] || p in declared[1..];
    }
  }

  lemma {:induction false} ServiceDeviationsIff(u: Units, declared: seq<ManifestService>, d: Deviation)
    ensures d in ServiceDeviations(u, declared) <==> exists e :: e in declared && d in CheckService(u, e)
  {
    if declared != [] {
      ServiceDeviationsIff(u, declared[1..], d);
      assert forall e :: e in declared <==> e == declared[0] || e in declared[1..];
    }
  }

  lemma UnauthorizedIff(snapshot: seq<string>, listing: Option<seq<string>>, name: string)
    ensures name in Unlisted(snapshot, listing) <==>
            snapshot != [] && name !in snapshot && listing.Some? && name in listing.value
  {
    if snapshot != [] && listing.Some? {
      OutsideMembers(Elements(snapshot), listing.value);
    }
  }

  lemma TagIff(names: seq<string>, tag: string -> Deviation, name: string)
    requires forall a, b :: tag(a) == tag(b) ==> a == b
    ensures tag(name) in Tag(names, tag) <==> name in names
    ensures forall d :: d in Tag(names, tag) ==> exists n :: d == tag(n)
  {
    if i: nat :| i < |names| && names[i] == name {
      assert Tag(names, tag)[i] == tag(name);
    }
  }

  lemma FilePart(s: System, m: Manifest, checks: seq<string>, fast: bool, d: Deviation)
    requires IsWellFormed(m)
    ensures d in FileDeviations(s.fs, m.files.Items(), checks, fast) <==>
            d.OfFile? && IsDeviation(s, m, checks, fast, d)
  {
    var found := CheckInOrder(s.fs, m.files.Items(), checks, fast);
    if d.OfFile? {
      CheckInOrderMembers(s.fs, m.files.Items(), checks, fast, d.file);
      if i: nat :| i < |found| && found[i] == d.file {
        assert FileDeviations(s.fs, m.files.Items(), checks, fast)[i] == d;
      }
    }
  }

  lemma PackagePart(s: System, m: Manifest, checks: seq<string>, fast: bool, d: Deviation)
    requires IsWellFormed(m)
    ensures d in PackageDeviations(s.packages, m.packages.Items()) <==>
            (d.MissingPackage? || d.VersionMismatch?) && IsDeviation(s, m, checks, fast, d)
  {
    var declared := m.packages.Items();
    PackageDeviationsIff(s.packages, declared, d);
    if d.MissingPackage? || d.VersionMismatch? {
      LookupIsFirst(s.packages, d.name, "x");
    }
    if d.VersionMismatch? && IsDeviation(s, m, checks, fast, d) {
      assert d in CheckPackage(s.packages, ManifestPackage(d.name, d.want));
    }
    if d.MissingPackage? && IsDeviation(s, m, checks, fast, d) {
      var p :| p in declared && p.name == d.name;
      assert d in CheckPackage(s.packages, p);
    }
  }

  lemma OneService(u: Units, e: ManifestService, d: Deviation)
    ensures d in CheckService(u, e) <==>
            && u.present
            && match d
               case InactiveService(name) => e.name == name && e.running && name !in u.hidden && name !in u.active
               case DisabledService(name) => e.name == name && e.enabled && name !in u.hidden && name !in u.enabled
               case UnverifiableService(name, verb) =>
                 e.name == name && name in u.hidden && (if verb == IsActive then e.running else e.enabled)
               case _ => false
  {
  }

  lemma ServicePart(s: System, m: Manifest, checks: seq<string>, fast: bool, d: Deviation)
    requires IsWellFormed(m)
    ensures d in ServiceDeviations(s.units, m.services.Items()) <==>
            (d.InactiveService? || d.DisabledService? || d.UnverifiableService?) && IsDeviation(s, m, checks, fast, d)
  {
    var declared := m.services.Items();
    ServiceDeviationsIff(s.units, declared, d);
    forall e | e in declared
      ensures d in CheckService(s.units, e) ==> IsDeviation(s, m, checks, fast, d)
    {
      OneService(s.units, e, d);
    }
    if (d.InactiveService? || d.DisabledService? || d.UnverifiableService?) && IsDeviation(s, m, checks, fast, d) {
      var verb := if d.InactiveService? then IsActive else if d.DisabledService? then IsEnabled else d.verb;
      var e :| e in declared && e.name == d.name
               && match verb { case IsActive => e.running case IsEnabled => e.enabled };
      OneService(s.units, e, d);
    }
  }

  lemma UnauthorizedParts(s: System, m: Manifest, checks: seq<string>, fast: bool, d: Deviation)
    requires IsWellFormed(m)
    ensures d in UnauthorizedPackages(s, m.packageSnapshot.Items()) <==>
            d.UnauthorizedPackage? && IsDeviation(s, m, checks, fast, d)
    ensures d in UnauthorizedServices(s.units, m.serviceSnapshot.Items()) <==>
            d.UnauthorizedService? && IsDeviation(s, m, checks, fast, d)
  {
    var packages, services := m.packageSnapshot.Items(), m.serviceSnapshot.Items();
    if d.UnauthorizedPackage? {
      UnauthorizedIff(packages, ListPackages(s), d.name);
      TagIff(Unlisted(packages, ListPackages(s)), PackageTag, d.name);
      NamesHold(s.packages, d.name);
    }
    if d.UnauthorizedService? {
      UnauthorizedIff(services, ListActive(s.units), d.name);
      TagIff(Unlisted(services, ListActive(s.units)), ServiceTag, d.name);
    }
  }

  lemma NamesHold(packages: seq<Package>, name: string)
    ensures name in Names(packages) <==> exists p :: p in packages && p.name == name
  {
    if p :| p in packages && p.name == name {
      var i :| 0 <= i < |packages| && packages[i] == p;
      assert Names(packages)[i] == name;
    }
  }

  /** A verification reports exactly the deviations there are, each kind for its own reason. */
  lemma DeviationsIff(s: System, m: Manifest, checks: seq<string>, fast: bool, d: Deviation)
    requires IsWellFormed(m)
    ensures d in Deviations(s, m, checks, fast) <==> IsDeviation(s, m, checks, fast, d)
  {
    FilePart(s, m, checks, fast, d);
    PackagePart(s, m, checks, fast, d);
    ServicePart(s, m, checks, fast, d);
    UnauthorizedParts(s, m, checks, fast, d);
    assert d in Deviations(s, m, checks, fast) <==>
      || d in FileDeviations(s.fs, m.files.Items(), checks, fast)
      || d in PackageDeviations(s.packages, m.packages.Items())
      || d in ServiceDeviations(s.units, m.services.Items())
      || d in UnauthorizedPackages(s, m.packageSnapshot.Items())
      || d in UnauthorizedServices(s.units, m.serviceSnapshot.Items());
  }
}
