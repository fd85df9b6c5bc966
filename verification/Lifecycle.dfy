/** What recording, generating, checking and remediating mean for each other. */
module Lifecycle {
  import opened Wrappers
  import opened Manifests
  import opened Sequences
  import opened Orders
  import opened FileChecks
  import opened Systems
  import opened Remediation
  import opened AuditLoop
  import opened Generation
  import Encoding
  import Records
  import FileIndexes

  // ---- recording and checking ----

  /**
   Whatever drifted between cycles is reported after any number of later cycles whose
   runs left the path alone, for any check set and both modes: the file deviates
   exactly when it fails the check against its entry from before those cycles, so the
   drifted state is never adopted as the recorded one.
   */
  lemma DriftStaysReportedIff(history: seq<Records.Cycle>, later: seq<Records.Cycle>, files: seq<ManifestFile>,
                              p: string, fs: FileSystem, checks: seq<string>, fast: bool)
    requires Records.Lists(files, Records.Tracked(history + later)) && AllCheckable(files)
    requires p in Records.Tracked(history)
    requires forall c :: c in later ==> At(c.pre, p) == At(c.post, p)
    ensures IsCheckable(Records.Tracked(history)[p])
    ensures (exists d :: d in CheckInOrder(fs, files, checks, fast) && d.path == p) <==>
            CheckFile(fs, Records.Tracked(history)[p], checks, fast).Some?
  {
    var all := Records.Tracked(history + later);
    Records.DriftIsNotAdopted(history, later, p);
    assert p in all && all[p] == Records.Tracked(history)[p];
    var f := all[p];
    assert f in all.Values && f in Elements(files);
    if CheckFile(fs, f, checks, fast).Some? {
      CheckInOrderMembers(fs, files, checks, fast, FileDeviation(CheckFile(fs, f, checks, fast).value, p));
    }
    if d :| d in CheckInOrder(fs, files, checks, fast) && d.path == p {
      CheckInOrderMembers(fs, files, checks, fast, d);
      var g :| g in files && g.path == p && CheckFile(fs, g, checks, fast) == Some(d.issue);
      assert g in Elements(files);
    }
  }

  /**
   Drift between cycles is the only source of file deviations: after any number of
   cycles with none on the tracked paths, the recorded files check clean on the system
   that the last cycle indexed, for any check set and both modes.
   */
  lemma UnbrokenHistoryChecksClean(history: seq<Records.Cycle>, fs: FileSystem, roots: seq<string>,
                                   files: seq<ManifestFile>, checks: seq<string>, fast: bool)
    requires history != [] && history[|history| - 1].post == FileIndexes.IndexOf(fs, roots)
    requires Records.Lists(files, Records.Tracked(history))
    requires forall p :: p in Records.Tracked(history) ==> Records.IsUnbroken(history, p)
    ensures AllCheckable(files) && CheckInOrder(fs, files, checks, fast) == []
  {
    var tracked := Records.Tracked(history);
    forall f | f in files
      ensures IsCheckable(f) && CheckFile(fs, f, checks, fast) == None
    {
      assert f in Elements(files);
      var p :| p in tracked && tracked[p] == f;
      Records.UnbrokenIsCurrent(history, p);
      RecordedEntryChecksClean(fs, roots, p, checks, fast);
    }
    var found := CheckInOrder(fs, files, checks, fast);
    if found != [] {
      var d := found[0];
      assert d in found;
      CheckInOrderMembers(fs, files, checks, fast, d);
    }
  }

  /** Right after a first cycle, then, every tracked file checks clean. */
  lemma FirstCycleChecksClean(pre: FileIndex, fs: FileSystem, roots: seq<string>, files: seq<ManifestFile>,
                              checks: seq<string>, fast: bool)
    requires Records.Lists(files, Records.Merge(map[], pre, FileIndexes.IndexOf(fs, roots)))
    ensures AllCheckable(files) && CheckInOrder(fs, files, checks, fast) == []
  {
    var history := [Records.Cycle(pre, FileIndexes.IndexOf(fs, roots))];
    assert history[..0] == [];
    assert Records.Tracked(history) == Records.Merge(map[], pre, FileIndexes.IndexOf(fs, roots));
    UnbrokenHistoryChecksClean(history, fs, roots, files, checks, fast);
  }

  // ---- generating and remediating ----

  lemma {:induction false} CollectedServiceEntries(u: Units, names: seq<string>)
    ensures forall d :: d in CollectedServices(u, names) ==> d == ServiceEntry(u, d.name)
  {
    if names != [] {
      CollectedServiceEntries(u, names[1..]);
    }
  }

  lemma SnapshotMembers(listing: Option<seq<string>>)
    ensures listing.Some? ==> forall x :: x in Snapshot(listing).Items() <==> x in listing.value
    ensures listing.None? ==> Snapshot(listing).Items() == []
  {
    if listing.Some? {
      var l, r := listing.value, SortStrings(listing.value);
      assert forall x :: x in l <==> x in multiset(l);
      assert forall x :: x in r <==> x in multiset(r);
    }
  }

  /** A generated manifest is always one that remediation can settle. */
  lemma GeneratedIsStable(s: System, files: seq<string>, specs: seq<PackageSpec>, services: seq<string>,
                          snapshot: bool, now: int)
    ensures var g := Generated(s, files, specs, services, snapshot, now);
            IsStable(g.serviceSnapshot.Items(), g.services.Items())
  {
    var g := Generated(s, files, specs, services, snapshot, now);
    CollectedServiceEntries(s.units, services);
    SnapshotMembers(ListActive(s.units));
    assert g.services.Items() == CollectedServices(s.units, services);
    forall d | d in g.services.Items() && d.running
      ensures g.serviceSnapshot.Items() == [] || d.name in g.serviceSnapshot.Items()
    {
      assert d == ServiceEntry(s.units, d.name);
      assert d.name in s.units.active;
    }
  }

  lemma StableConverges(snapshot: seq<string>, declared: seq<ManifestService>)
    requires IsStable(snapshot, declared)
    ensures LastSuffices(declared) && RunsAuthorized(snapshot, declared)
  {
    assert forall d :: d in declared ==> IsDeclared(declared, d.name);
  }

  /**
   A generated manifest against any later state of the machine, whatever the manager
   removes besides: after the first tick the loop is clean exactly when it was so at
   first, or the files check clean and each declared package is left as generated.
   */
  lemma GeneratedConvergesIff(s: System, later: System, files: seq<string>, specs: seq<PackageSpec>,
                              services: seq<string>, snapshot: bool, now: int, c: Settings, manager: Manager, n: nat)
    requires "" !in files && AreNamed(specs) && "" !in services
    requires IsResponsive(later.units) && IsObedient(manager) && c.remediate && n >= 1
    ensures var g := Generated(s, files, specs, services, snapshot, now);
            && IsWellFormed(g)
            && (VerdictAt(later, g, c, manager, n) == [] <==>
                || VerdictAt(later, g, c, manager, 0) == []
                || var left := AfterRemoval(later, g.packageSnapshot.Items(), manager);
                   && FileDeviations(left.fs, g.files.Items(), c.Checks(), c.fast) == []
                   && forall p :: p in g.packages.Items() ==> CheckPackage(left.packages, p) == [])
  {
    var g := Generated(s, files, specs, services, snapshot, now);
    GeneratedIsWellFormed(s, files, specs, services, snapshot, now);
    GeneratedIsStable(s, files, specs, services, snapshot, now);
    StableConverges(g.serviceSnapshot.Items(), g.services.Items());
    LoopConvergesIff(later, g, c, manager, n);
  }

  /** With files and declared packages as generated and an exact manager, drift is reported once at most. */
  lemma GeneratedConverges(s: System, later: System, files: seq<string>, specs: seq<PackageSpec>, services: seq<string>,
                           snapshot: bool, now: int, c: Settings, manager: Manager, n: nat)
    requires "" !in files && AreNamed(specs) && "" !in services
    requires IsResponsive(later.units) && later.packagesListable && IsExact(manager) && c.remediate && n >= 1
    requires later.fs == s.fs && SpecDeviations(s.packages, specs) == []
    requires forall p :: p in specs ==> LookupVersion(later.packages, p.name) == LookupVersion(s.packages, p.name)
    ensures var g := Generated(s, files, specs, services, snapshot, now);
            IsWellFormed(g) && VerdictAt(later, g, c, manager, n) == []
  {
    ExactIsObedient(manager);
    GeneratedConvergesIff(s, later, files, specs, services, snapshot, now, c, manager, n);
    CollectedFilesClean(s.fs, files, c.Checks(), c.fast);
    SnapshotMembers(ListPackages(s));
    ExactPackages(later, if snapshot then Snapshot(ListPackages(s)).Items() else [], manager, "");
    DeclaredAreLeft(s, later, specs, if snapshot then Snapshot(ListPackages(s)).Items() else [], manager);
  }

  lemma DeclaredAreLeft(s: System, later: System, specs: seq<PackageSpec>, snapshot: seq<string>, manager: Manager)
    requires later.packagesListable && IsExact(manager) && SpecDeviations(s.packages, specs) == []
    requires forall p :: p in specs ==> LookupVersion(later.packages, p.name) == LookupVersion(s.packages, p.name)
    requires snapshot == [] || forall n :: n in Names(s.packages) ==> n in snapshot
    ensures forall p :: p in CollectedPackages(s.packages, specs) ==>
                          CheckPackage(AfterRemoval(later, snapshot, manager).packages, p) == []
  {
    forall p | p in CollectedPackages(s.packages, specs)
      ensures CheckPackage(AfterRemoval(later, snapshot, manager).packages, p) == []
    {
      DeclaredIsKept(s, later, specs, p);
      ExactPackages(later, snapshot, manager, p.name);
    }
  }

  lemma {:induction false} DeclaredIsKept(s: System, later: System, specs: seq<PackageSpec>, p: ManifestPackage)
    requires p in CollectedPackages(s.packages, specs)
    requires SpecDeviations(s.packages, specs) == []
    requires forall q :: q in specs ==> LookupVersion(later.packages, q.name) == LookupVersion(s.packages, q.name)
    ensures CheckPackage(later.packages, p) == [] && p.name in Names(s.packages)
  {
    var q := specs[0];
    assert q in specs;
    if p == PackageEntry(s.packages, q) {
      LookupListed(s.packages, p.name);
    } else {
      assert forall r :: r in specs[1..] ==> r in specs;
      DeclaredIsKept(s, later, specs[1..], p);
    }
  }

  // ---- recording and remediating ----

  /**
   Recording refreshes the service snapshot but keeps the declared services. When a
   declared-running service is down at that moment while others are up, remediation
   never settles again: there is drift at once, and it stops and starts the service on
   every later tick.
   */
  lemma RecordingUnsettles(was: Manifest, files: seq<ManifestFile>, packages: Slice<string>, active: seq<string>,
                           now: int, s: System, c: Settings, manager: Manager, name: string, n: nat)
    requires IsWellFormed(Records.Refreshed(was, files, packages, Of(active), now)) && IsResponsive(s.units)
             && c.remediate && n >= 1
    requires IsDeclared(was.services.Items(), name) && Decisive(was.services.Items(), name).running
    requires active != [] && name !in active && IsGentle(manager)
    ensures var m := Records.Refreshed(was, files, packages, Of(active), now);
            VerdictAt(s, m, c, manager, 0) != [] && RestartsAt(SystemAt(s, m, c, manager, n), m, c, manager, name)
  {
    OffenderRestartsForever(s, Records.Refreshed(was, files, packages, Of(active), now), c, manager, name, 0);
    OffenderRestartsForever(s, Records.Refreshed(was, files, packages, Of(active), now), c, manager, name, n);
  }

  // ---- generating and checking later ----

  lemma {:induction false} CollectedFileIff(fs: FileSystem, paths: seq<string>, f: ManifestFile)
    ensures f in CollectedFiles(fs, paths) <==>
            && f.path in paths && f.path in fs
            && match fs[f.path].target
               case File(regular, a, readable) =>
                 regular && readable && f == ManifestFile(f.path, a.sha256, a.mode, a.size, a.mtime)
               case _ => false
  {
    if paths != [] {
      CollectedFileIff(fs, paths[1..], f);
      assert forall p :: p in paths <==> p == paths[0] || p in paths[1..];
    }
  }

  lemma {:induction false} CollectedPackageIff(packages: seq<Package>, specs: seq<PackageSpec>, e: ManifestPackage)
    ensures e in CollectedPackages(packages, specs) <==>
            exists p :: p in specs && IsEntryFor(e, p, LookupVersion(packages, p.name))
  {
    if specs != [] {
      CollectedPackageIff(packages, specs[1..], e);
      assert forall p :: p in specs <==> p == specs[0] || p in specs[1..];
    }
  }

  /** The units are seen in this state. */
  predicate IsSeen(u: Units, verb: Verb, name: string) {
    && u.present && name !in u.hidden
    && match verb { case IsActive => name in u.active case IsEnabled => name in u.enabled }
  }

  lemma {:induction false} CollectedServiceIff(u: Units, names: seq<string>, d: ManifestService)
    ensures d in CollectedServices(u, names) <==>
            && d.name in names && (d.running <==> IsSeen(u, IsActive, d.name))
            && (d.enabled <==> IsSeen(u, IsEnabled, d.name))
  {
    if names != [] {
      CollectedServiceIff(u, names[1..], d);
      assert forall n :: n in names <==> n == names[0] || n in names[1..];
    }
  }

  ghost predicate IsInstalled(packages: seq<Package>, name: string) {
    exists p :: p in packages && p.name == name
  }

  /** What each deviation of a later system from a generated manifest says of the two systems. */
  ghost predicate IsDetected(s: System, later: System, files: seq<string>, specs: seq<PackageSpec>,
                             services: seq<string>, snapshot: bool, checks: seq<string>, fast: bool, d: Deviation)
  {
    match d
    case OfFile(FileDeviation(issue, path)) =>
      && path != "" && path in files && path in s.fs
      && (match s.fs[path].target
          case File(regular, a, readable) =>
            && regular && readable
            && CheckFile(later.fs, ManifestFile(path, a.sha256, a.mode, a.size, a.mtime), checks, fast) == Some(issue)
          case _ => false)
    case MissingPackage(name) => (exists p :: p in specs && p.name == name) && !IsInstalled(later.packages, name)
    case VersionMismatch(name, have, want) =>
      && have != "" && want != "" && LookupVersion(later.packages, name) == Some(have) && have != want
      && (PackageSpec(name, want) in specs
          || (PackageSpec(name, "") in specs && LookupVersion(s.packages, name) == Some(want)))
    case InactiveService(name) =>
      && name in services && IsSeen(s.units, IsActive, name)
      && later.units.present && name !in later.units.hidden && name !in later.units.active
    case DisabledService(name) =>
      && name in services && IsSeen(s.units, IsEnabled, name)
      && later.units.present && name !in later.units.hidden && name !in later.units.enabled
    case UnverifiableService(name, verb) =>
      name in services && IsSeen(s.units, verb, name) && later.units.present && name in later.units.hidden
    case UnauthorizedPackage(name) =>
      && snapshot && s.packagesListable && s.packages != [] && !IsInstalled(s.packages, name)
      && later.packagesListable && IsInstalled(later.packages, name)
    case UnauthorizedService(name) =>
      && snapshot && s.units.present && s.units.listable && s.units.active != [] && name !in s.units.active
      && later.units.present && later.units.listable && name in later.units.active
  }

  lemma DeclaredNames(packages: seq<Package>, specs: seq<PackageSpec>, name: string)
    ensures (exists e :: e in CollectedPackages(packages, specs) && e.name == name) <==>
            (exists p :: p in specs && p.name == name)
  {
    var entries := CollectedPackages(packages, specs);
    if e :| e in entries && e.name == name {
      CollectedPackageIff(packages, specs, e);
    }
    if p :| p in specs && p.name == name {
      CollectedPackageIff(packages, specs, PackageEntry(packages, p));
    }
  }

  lemma DeclaredVersion(packages: seq<Package>, specs: seq<PackageSpec>, name: string, want: string)
    requires want != ""
    ensures ManifestPackage(name, want) in CollectedPackages(packages, specs) <==>
            || PackageSpec(name, want) in specs
            || (PackageSpec(name, "") in specs && LookupVersion(packages, name) == Some(want))
  {
    var e := ManifestPackage(name, want);
    CollectedPackageIff(packages, specs, e);
    if p :| p in specs && IsEntryFor(e, p, LookupVersion(packages, p.name)) {
      assert p == PackageSpec(name, if p.version == "" then "" else want);
    }
    if PackageSpec(name, want) in specs {
      assert IsEntryFor(e, PackageSpec(name, want), LookupVersion(packages, name));
    }
    if PackageSpec(name, "") in specs && LookupVersion(packages, name) == Some(want) {
      assert IsEntryFor(e, PackageSpec(name, ""), LookupVersion(packages, name));
    }
  }

  lemma DeclaredServices(u: Units, names: seq<string>, name: string, verb: Verb)
    ensures Wants(CollectedServices(u, names), name, verb) <==> name in names && IsSeen(u, verb, name)
  {
    var entries := CollectedServices(u, names);
    CollectedServiceIff(u, names, ServiceEntry(u, name));
    forall e | e in entries
      ensures e.name in names && (e.running <==> IsSeen(u, IsActive, e.name))
              && (e.enabled <==> IsSeen(u, IsEnabled, e.name))
    {
      CollectedServiceIff(u, names, e);
    }
  }

  lemma DetectedFiles(s: System, later: System, files: seq<string>, specs: seq<PackageSpec>, services: seq<string>,
                      snapshot: bool, now: int, checks: seq<string>, fast: bool, d: Deviation)
    requires IsWellFormed(Generated(s, files, specs, services, snapshot, now)) && d.OfFile?
    ensures IsDeviation(later, Generated(s, files, specs, services, snapshot, now), checks, fast, d) <==>
            IsDetected(s, later, files, specs, services, snapshot, checks, fast, d)
  {
    var entries := Generated(s, files, specs, services, snapshot, now).files.Items();
    assert entries == CollectedFiles(s.fs, files);
    forall f
      ensures f in entries <==>
              && f.path in files && f.path in s.fs
              && match s.fs[f.path].target
                 case File(regular, a, readable) =>
                   regular && readable && f == ManifestFile(f.path, a.sha256, a.mode, a.size, a.mtime)
                 case _ => false
    {
      CollectedFileIff(s.fs, files, f);
    }
  }

  lemma SnapshotNames(s: System, name: string)
    ensures name in Snapshot(ListPackages(s)).Items() <==> s.packagesListable && IsInstalled(s.packages, name)
    ensures Snapshot(ListPackages(s)).Items() != [] <==> s.packagesListable && s.packages != []
    ensures name in Snapshot(ListActive(s.units)).Items() <==>
            s.units.present && s.units.listable && name in s.units.active
    ensures Snapshot(ListActive(s.units)).Items() != [] <==>
            s.units.present && s.units.listable && s.units.active != []
  {
    SnapshotMembers(ListPackages(s));
    SnapshotMembers(ListActive(s.units));
    NamesHold(s.packages, name);
    NonEmptyIff(Snapshot(ListPackages(s)).Items(), if s.packagesListable then Names(s.packages) else []);
    NonEmptyIff(Snapshot(ListActive(s.units)).Items(),
                if s.units.present && s.units.listable then s.units.active else []);
  }

  lemma NonEmptyIff(a: seq<string>, b: seq<string>)
    requires forall x :: x in a <==> x in b
    ensures a != [] <==> b != []
  {
    assert a != [] ==> a[0] in a;
    assert b != [] ==> b[0] in b;
  }

  /**
   A manifest generated on one system and checked on any other, or on the same one
   later, reports exactly how the two differ in what it was generated for.
   */
  lemma GeneratedDetectsIff(s: System, later: System, files: seq<string>, specs: seq<PackageSpec>,
                            services: seq<string>, snapshot: bool, now: int, checks: seq<string>, fast: bool,
                            d: Deviation)
    requires "" !in files && AreNamed(specs) && "" !in services
    ensures var g := Generated(s, files, specs, services, snapshot, now);
            && IsWellFormed(g)
            && (d in Deviations(later, g, checks, fast) <==>
                IsDetected(s, later, files, specs, services, snapshot, checks, fast, d))
  {
    var g := Generated(s, files, specs, services, snapshot, now);
    GeneratedIsWellFormed(s, files, specs, services, snapshot, now);
    DeviationsIff(later, g, checks, fast, d);
    assert g.packages.Items() == CollectedPackages(s.packages, specs);
    assert g.services.Items() == CollectedServices(s.units, services);
    match d
    case OfFile(_) => DetectedFiles(s, later, files, specs, services, snapshot, now, checks, fast, d);
    case MissingPackage(name) => DeclaredNames(s.packages, specs, name);
    case VersionMismatch(name, _, want) =>
      if want != "" {
        DeclaredVersion(s.packages, specs, name, want);
      }
    case InactiveService(name) => DeclaredServices(s.units, services, name, IsActive);
    case DisabledService(name) => DeclaredServices(s.units, services, name, IsEnabled);
    case UnverifiableService(name, verb) => DeclaredServices(s.units, services, name, verb);
    case UnauthorizedPackage(name) => SnapshotNames(s, name);
    case UnauthorizedService(name) => SnapshotNames(s, name);
  }

  /** An upgrade since generation is reported with both versions, unless the spec pinned one. */
  lemma UpgradeIsReported(s: System, later: System, files: seq<string>, specs: seq<PackageSpec>, services: seq<string>,
                          snapshot: bool, now: int, checks: seq<string>, fast: bool, name: string,
                          had: Name, has: Name)
    requires "" !in files && AreNamed(specs) && "" !in services
    requires PackageSpec(name, "") in specs && had != has
    requires LookupVersion(s.packages, name) == Some(had) && LookupVersion(later.packages, name) == Some(has)
    ensures var g := Generated(s, files, specs, services, snapshot, now);
            IsWellFormed(g) && VersionMismatch(name, has, had) in Deviations(later, g, checks, fast)
  {
    GeneratedDetectsIff(s, later, files, specs, services, snapshot, now, checks, fast,
                        VersionMismatch(name, has, had));
  }

  // ---- recording and checking later ----

  lemma RecordedNames(s: System, name: string)
    ensures Records.Listing(ListPackages(s)).Items() == if s.packagesListable then Names(s.packages) else []
    ensures name in Records.Listing(ListPackages(s)).Items() <==> s.packagesListable && IsInstalled(s.packages, name)
    ensures Records.Listing(ListActive(s.units)).Items()
         == if s.units.present && s.units.listable then s.units.active else []
  {
    NamesHold(s.packages, name);
  }

  /**
   A recording authorizes what was installed and active then, whatever the manifest
   authorized before: later a package or service is unauthorized exactly when it is
   there and was not then. An empty listing authorizes everything.
   */
  lemma RecordedAuthorizesIff(was: Manifest, files: seq<ManifestFile>, s: System, now: int, later: System,
                              checks: seq<string>, fast: bool, name: string)
    requires IsWellFormed(Records.Refreshed(was, files, Records.Listing(ListPackages(s)),
                                            Records.Listing(ListActive(s.units)), now))
    ensures var m := Records.Refreshed(was, files, Records.Listing(ListPackages(s)),
                                       Records.Listing(ListActive(s.units)), now);
            && (UnauthorizedPackage(name) in Deviations(later, m, checks, fast) <==>
                && s.packagesListable && s.packages != [] && !IsInstalled(s.packages, name)
                && later.packagesListable && IsInstalled(later.packages, name))
            && (UnauthorizedService(name) in Deviations(later, m, checks, fast) <==>
                && s.units.present && s.units.listable && s.units.active != [] && name !in s.units.active
                && later.units.present && later.units.listable && name in later.units.active)
  {
    var m := Records.Refreshed(was, files, Records.Listing(ListPackages(s)), Records.Listing(ListActive(s.units)), now);
    RecordedNames(s, name);
    DeviationsIff(later, m, checks, fast, UnauthorizedPackage(name));
    DeviationsIff(later, m, checks, fast, UnauthorizedService(name));
  }

  /** So on the system just recorded nothing is unauthorized. */
  lemma RecordedIsAuthorized(was: Manifest, files: seq<ManifestFile>, s: System, now: int)
    ensures var m := Records.Refreshed(was, files, Records.Listing(ListPackages(s)),
                                       Records.Listing(ListActive(s.units)), now);
            && UnauthorizedPackages(s, m.packageSnapshot.Items()) == []
            && UnauthorizedServices(s.units, m.serviceSnapshot.Items()) == []
  {
    RecordedNames(s, "");
    UnlistedEmptyIff(Records.Listing(ListPackages(s)).Items(), ListPackages(s));
    UnlistedEmptyIff(Records.Listing(ListActive(s.units)).Items(), ListActive(s.units));
  }

  /**
   Generating for no files over a recording that tracks none reports a change, although
   neither holds a file: the one list is null and the other is empty.
   */
  lemma EmptyRecordingDiffers(was: Manifest, packages: Slice<string>, active: Slice<string>, now: int, s: System,
                              files: seq<string>, specs: seq<PackageSpec>, services: seq<string>, snapshot: bool,
                              later: int)
    requires CollectedFiles(s.fs, files) == []
    ensures !Encoding.ManifestsEqual(Records.Refreshed(was, [], packages, active, now),
                                     Generated(s, files, specs, services, snapshot, later))
  {
    var recorded := Records.Refreshed(was, [], packages, active, now);
    var generated := Generated(s, files, specs, services, snapshot, later);
    Encoding.ManifestsEqualIff(recorded, generated);
    assert Encoding.Undated(Encoding.Normal(recorded)).files == Of([]);
    assert Encoding.Undated(Encoding.Normal(generated)).files == Nil;
  }
}
