/**
 Check, remediate, check again: the daemon's audit loop and the one-shot
 remediation, with nothing else changing the system in between.
 */
module AuditLoop {
  import opened Wrappers
  import opened Manifests
  import opened Sequences
  import opened FileChecks
  import opened Systems
  import opened Remediation
  import Pool

  datatype Settings = Settings(configured: seq<string>, fast: bool, remediate: bool) {
    function Checks(): seq<string> {
      Effective(configured)
    }
  }

  /** What the removal of packages puts in the report. */
  function PackageReport(s: System, m: Manifest, manager: Manager): Report {
    var snapshot := m.packageSnapshot.Items();
    var left := AfterRemoval(s, snapshot, manager);
    NOTHING.(packagesRemoved := RemovedPackages(snapshot, ListPackages(s), ListPackages(left)))
  }

  /** One enforcement pass: the new system and the report. */
  function Pass(s: System, m: Manifest, manager: Manager): (System, Report)
    requires IsWellFormed(m)
  {
    var left := AfterRemoval(s, m.packageSnapshot.Items(), manager);
    var r := PassServices(left.units, NO_FAULTS, m.serviceSnapshot.Items(), m.services.Items(),
                          PackageReport(s, m, manager));
    (left.(units := r.0), r.1)
  }

  /** A run of the machine whose commands succeed is the pass, whatever its manager does. */
  method RunPass(s: System, m: Manifest, manager: Manager) returns (next: System, rep: Report)
    requires IsWellFormed(m)
    ensures (next, rep) == Pass(s, m, manager)
  {
    assert AllNamed(m.services.Items());
    var machine := new Machine(s, NO_FAULTS, manager);
    rep := machine.Remediate(m);
    next := machine.system;
  }

  /** The verdict of one tick is emitted as found before the remediation it triggers. */
  function Tick(s: System, m: Manifest, c: Settings, manager: Manager): (seq<Deviation>, System)
    requires IsWellFormed(m)
  {
    var found := Deviations(s, m, c.Checks(), c.fast);
    (found, if c.remediate && found != [] then Pass(s, m, manager).0 else s)
  }

  function SystemAt(s: System, m: Manifest, c: Settings, manager: Manager, n: nat): System
    requires IsWellFormed(m)
  {
    if n == 0 then s else Tick(SystemAt(s, m, c, manager, n - 1), m, c, manager).1
  }

  function VerdictAt(s: System, m: Manifest, c: Settings, manager: Manager, n: nat): seq<Deviation>
    requires IsWellFormed(m)
  {
    Tick(SystemAt(s, m, c, manager, n), m, c, manager).0
  }

  /** `emitted` holds the verdicts of the first ticks, in order. */
  ghost predicate Emits(s: System, m: Manifest, c: Settings, manager: Manager, emitted: seq<Verdict>)
    requires IsWellFormed(m)
  {
    forall i :: 0 <= i < |emitted| ==> emitted[i] == VerdictOf(VerdictAt(s, m, c, manager, i))
  }

  lemma EmitsOneMore(s: System, m: Manifest, c: Settings, manager: Manager, emitted: seq<Verdict>, v: Verdict)
    requires IsWellFormed(m) && Emits(s, m, c, manager, emitted)
    requires v == VerdictOf(VerdictAt(s, m, c, manager, |emitted|))
    ensures Emits(s, m, c, manager, emitted + [v])
  {
  }

  /** A run of the file pool from start to end. */
  predicate IsSchedule(fs: FileSystem, m: Manifest, c: Settings, procs: int, steps: seq<Pool.Step>) {
    Pool.IsComplete(CheckPool(fs, m.files.Items(), c.Checks(), c.fast, procs), steps)
  }

  /** A schedule for each of the first ticks. */
  ghost predicate AreSchedules(s: System, m: Manifest, c: Settings, manager: Manager, procs: int,
                               schedules: seq<seq<Pool.Step>>)
    requires IsWellFormed(m)
  {
    forall i :: 0 <= i < |schedules| ==> IsSchedule(SystemAt(s, m, c, manager, i).fs, m, c, procs, schedules[i])
  }

  lemma PickSchedule(s: System, m: Manifest, c: Settings, manager: Manager, procs: int,
                     schedules: seq<seq<Pool.Step>>, i: nat)
    requires IsWellFormed(m) && AreSchedules(s, m, c, manager, procs, schedules) && i < |schedules|
    ensures IsSchedule(SystemAt(s, m, c, manager, i).fs, m, c, procs, schedules[i])
  {
  }

  /** The daemon: the system it watches changes only by its own remediation. */
  class Agent {
    var system: System
    const m: Manifest
    const c: Settings
    const manager: Manager
    const procs: int

    constructor (system: System, m: Manifest, c: Settings, manager: Manager, procs: int)
      ensures this.system == system && this.m == m && this.c == c && this.manager == manager && this.procs == procs
    {
      this.system := system;
      this.m := m;
      this.c := c;
      this.manager := manager;
      this.procs := procs;
    }

    /**
     A verification and, on drift, a run of the machine. The verdict is that of the
     system before it; a clean or merely watching tick changes nothing, and a file
     changes only by what the package manager does.
     */
    method AuditTick(steps: seq<Pool.Step>) returns (v: Verdict)
      requires IsWellFormed(m) && IsSchedule(system.fs, m, c, procs, steps)
      modifies this`system
      ensures v == VerdictOf(Deviations(old(system), m, c.Checks(), c.fast))
      ensures v.Clean? || !c.remediate ==> system == old(system)
      ensures || system.fs == old(system).fs
              || system.fs == AfterRemoval(old(system), m.packageSnapshot.Items(), manager).fs
      ensures (Deviations(old(system), m, c.Checks(), c.fast), system) == Tick(old(system), m, c, manager)
    {
      v := RunManifest(system, Some(m), c.configured, c.fast, procs, steps);
      if c.remediate && v.Drift? {
        var next, rep := RunPass(system, m, manager);
        system := next;
      }
    }

    /** The tick that follows the first `n` ones from `start`. */
    method NextTick(ghost start: System, ghost n: nat, steps: seq<Pool.Step>) returns (v: Verdict)
      requires IsWellFormed(m) && IsSchedule(system.fs, m, c, procs, steps)
               && system == SystemAt(start, m, c, manager, n)
      modifies this`system
      ensures v == VerdictOf(VerdictAt(start, m, c, manager, n))
      ensures system == SystemAt(start, m, c, manager, n + 1)
    {
      v := AuditTick(steps);
    }

    /** One tick per schedule, with what they emit. */
    method RunAuditLoop(schedules: seq<seq<Pool.Step>>) returns (emitted: seq<Verdict>)
      requires IsWellFormed(m)
      requires AreSchedules(system, m, c, manager, procs, schedules)
      modifies this`system
      ensures |emitted| == |schedules| && Emits(old(system), m, c, manager, emitted)
      ensures system == SystemAt(old(system), m, c, manager, |schedules|)
    {
      emitted := [];
      for i := 0 to |schedules|
        invariant |emitted| == i && Emits(old(system), m, c, manager, emitted)
        invariant system == SystemAt(old(system), m, c, manager, i)
      {
        PickSchedule(old(system), m, c, manager, procs, schedules, i);
        var v := NextTick(old(system), i, schedules[i]);
        EmitsOneMore(old(system), m, c, manager, emitted, v);
        emitted := emitted + [v];
      }
    }
  }

  // ---- package managers ----

  function Keep(packages: seq<Package>, asked: set<string>): (r: seq<Package>)
    ensures forall p :: p in r <==> p in packages && p.name !in asked
  {
    if packages == [] then []
    else
      assert packages == [packages[0]] + packages[1..];
      (if packages[0].name in asked then [] else [packages[0]]) + Keep(packages[1..], asked)
  }

  /** Removes what was asked and changes nothing else. */
  ghost predicate IsExact(manager: Manager) {
    forall s: System, asked: seq<string> :: manager(s, asked) == s.(packages := Keep(s.packages, Elements(asked)))
  }

  /** What was asked is gone, nothing is newly installed, and systemd still answers. */
  ghost predicate Obeys(s: System, asked: seq<string>, left: System) {
    && (forall p :: p in left.packages ==> p in s.packages && p.name !in asked)
    && (IsResponsive(s.units) ==> IsResponsive(left.units))
  }

  /**
   Removes what was asked, possibly more, and installs nothing: the orphans of what was
   removed may go too, with files and running units that belong to them.
   */
  ghost predicate IsObedient(manager: Manager) {
    forall s: System, asked: seq<string> :: Obeys(s, asked, manager(s, asked))
  }

  lemma ExactIsObedient(manager: Manager)
    requires IsExact(manager)
    ensures IsObedient(manager)
  {
    forall s: System, asked: seq<string>
      ensures Obeys(s, asked, manager(s, asked))
    {
      assert manager(s, asked) == s.(packages := Keep(s.packages, Elements(asked)));
    }
  }

  lemma {:induction false} KeepVersion(packages: seq<Package>, asked: set<string>, name: string)
    ensures LookupVersion(Keep(packages, asked), name) == if name in asked then None else LookupVersion(packages, name)
  {
    if packages != [] {
      KeepVersion(packages[1..], asked, name);
      var rest := Keep(packages[1..], asked);
      if packages[0].name in asked {
        assert Keep(packages, asked) == rest;
      } else {
        assert Keep(packages, asked)[1..] == rest;
      }
    }
  }

  lemma {:induction false} LookupListed(packages: seq<Package>, name: string)
    ensures LookupVersion(packages, name).Some? <==> name in Names(packages)
    ensures LookupVersion(packages, name).Some? ==> Package(name, LookupVersion(packages, name).value) in packages
  {
    if packages != [] {
      LookupListed(packages[1..], name);
      assert Names(packages) == [packages[0].name] + Names(packages[1..]);
    }
  }

  lemma NamesMembers(packages: seq<Package>)
    ensures forall n :: n in Names(packages) <==> exists p :: p in packages && p.name == n
  {
    forall n
      ensures n in Names(packages) <==> exists p :: p in packages && p.name == n
    {
      NamesHold(packages, n);
    }
  }

  /** An obedient manager leaves nothing unauthorized, so the pass after it does not ask again. */
  lemma ObedientSettles(s: System, snapshot: seq<string>, manager: Manager)
    requires IsObedient(manager)
    ensures var left := AfterRemoval(s, snapshot, manager);
            && Unlisted(snapshot, ListPackages(left)) == []
            && (forall p :: p in left.packages ==> p in s.packages)
            && (IsResponsive(s.units) ==> IsResponsive(left.units))
  {
    var left := AfterRemoval(s, snapshot, manager);
    var extra := Unlisted(snapshot, ListPackages(s));
    UnlistedEmptyIff(snapshot, ListPackages(left));
    if extra != [] {
      assert Obeys(s, extra, manager(s, extra));
      OutsideMembers(Elements(snapshot), Names(s.packages));
      NamesMembers(s.packages);
      NamesMembers(left.packages);
    }
  }

  /** An exact manager leaves the versions of the listed names and drops the rest. */
  lemma ExactPackages(s: System, snapshot: seq<string>, manager: Manager, name: string)
    requires s.packagesListable && IsExact(manager)
    ensures LookupVersion(AfterRemoval(s, snapshot, manager).packages, name)
         == if snapshot == [] || name in snapshot then LookupVersion(s.packages, name) else None
    ensures AfterRemoval(s, snapshot, manager).fs == s.fs
  {
    var extra := Unlisted(snapshot, ListPackages(s));
    OutsideMembers(Elements(snapshot), Names(s.packages));
    LookupListed(s.packages, name);
    UnlistedEmptyIff(snapshot, ListPackages(s));
    if extra != [] {
      KeepVersion(s.packages, Elements(extra), name);
    }
  }

  // ---- one pass, then a check ----

  /** What must hold for a pass to leave nothing to report, given how the manager leaves the system. */
  predicate Converges(s: System, m: Manifest, c: Settings, manager: Manager)
    requires IsWellFormed(m)
  {
    var left := AfterRemoval(s, m.packageSnapshot.Items(), manager);
    && FileDeviations(left.fs, m.files.Items(), c.Checks(), c.fast) == []
    && (forall p :: p in m.packages.Items() ==> CheckPackage(left.packages, p) == [])
    && LastSuffices(m.services.Items())
    && RunsAuthorized(m.serviceSnapshot.Items(), m.services.Items())
  }

  /**
   The check after a pass is clean exactly when the files are intact and the declared
   packages as recorded once the manager is done, and the services can be brought in
   line.
   */
  lemma CleanAfterWholePassIff(s: System, m: Manifest, c: Settings, manager: Manager)
    requires IsWellFormed(m) && IsResponsive(s.units) && IsObedient(manager)
    ensures Deviations(Pass(s, m, manager).0, m, c.Checks(), c.fast) == [] <==> Converges(s, m, c, manager)
  {
    var next := Pass(s, m, manager).0;
    var left := AfterRemoval(s, m.packageSnapshot.Items(), manager);
    assert AllNamed(m.services.Items());
    ObedientSettles(s, m.packageSnapshot.Items(), manager);
    CleanAfterPassIff(left.units, m.serviceSnapshot.Items(), m.services.Items(), PackageReport(s, m, manager));
    PackagesCleanIff(next.packages, m.packages.Items());
    assert UnauthorizedPackages(next, m.packageSnapshot.Items()) == [];
  }

  /** A declared package is installed as recorded, and the snapshot lets it stay. */
  predicate IsKept(packages: seq<Package>, snapshot: seq<string>, p: ManifestPackage) {
    CheckPackage(packages, p) == [] && (snapshot == [] || p.name in snapshot)
  }

  /** For an exact manager the condition can be read off the system and the manifest. */
  lemma ExactConvergesIff(s: System, m: Manifest, c: Settings, manager: Manager)
    requires IsWellFormed(m) && s.packagesListable && IsExact(manager)
    ensures Converges(s, m, c, manager) <==>
            && FileDeviations(s.fs, m.files.Items(), c.Checks(), c.fast) == []
            && (forall p :: p in m.packages.Items() ==> IsKept(s.packages, m.packageSnapshot.Items(), p))
            && LastSuffices(m.services.Items())
            && RunsAuthorized(m.serviceSnapshot.Items(), m.services.Items())
  {
    var snapshot := m.packageSnapshot.Items();
    forall p | p in m.packages.Items()
      ensures CheckPackage(AfterRemoval(s, snapshot, manager).packages, p) == [] <==> IsKept(s.packages, snapshot, p)
    {
      ExactPackages(s, snapshot, manager, p.name);
    }
    ExactPackages(s, snapshot, manager, "");
  }

  /** A pass reports nothing exactly when no package went away and the services were settled. */
  lemma PassEmptyIff(s: System, m: Manifest, manager: Manager)
    requires IsWellFormed(m) && IsResponsive(AfterRemoval(s, m.packageSnapshot.Items(), manager).units)
    ensures var left := AfterRemoval(s, m.packageSnapshot.Items(), manager);
            Pass(s, m, manager).1.Empty() <==>
            && PackageReport(s, m, manager).packagesRemoved == []
            && IsSettled(left.units, m.serviceSnapshot.Items(), m.services.Items())
  {
    assert AllNamed(m.services.Items());
    QuietIffSettled(AfterRemoval(s, m.packageSnapshot.Items(), manager).units, m.serviceSnapshot.Items(),
                    m.services.Items(), PackageReport(s, m, manager));
  }

  /**
   A second pass right after the first reports nothing exactly when the declared
   services are stable, for any manager that removes at least what it is asked to.
   */
  lemma SecondPassEmptyIff(s: System, m: Manifest, manager: Manager)
    requires IsWellFormed(m) && IsResponsive(s.units) && IsObedient(manager)
    ensures Pass(Pass(s, m, manager).0, m, manager).1.Empty() <==>
            IsStable(m.serviceSnapshot.Items(), m.services.Items())
  {
    var snapshot, services := m.serviceSnapshot.Items(), m.services.Items();
    assert AllNamed(services);
    var next, left := Pass(s, m, manager).0, AfterRemoval(s, m.packageSnapshot.Items(), manager);
    ObedientSettles(s, m.packageSnapshot.Items(), manager);
    assert ListPackages(next) == ListPackages(left);
    assert PackageReport(next, m, manager) == NOTHING;
    SettledAfterPassIff(left.units, snapshot, services, PackageReport(s, m, manager));
    ServicesAfterPass(left.units, snapshot, services, PackageReport(s, m, manager), "");
    QuietIffSettled(next.units, snapshot, services, NOTHING);
  }

  // ---- the loop ----

  lemma PassKeeps(s: System, m: Manifest, c: Settings, manager: Manager)
    requires IsWellFormed(m) && IsResponsive(s.units) && IsObedient(manager)
    ensures var next := Pass(s, m, manager).0;
            IsResponsive(next.units) && (Converges(next, m, c, manager) <==> Converges(s, m, c, manager))
  {
    var left := AfterRemoval(s, m.packageSnapshot.Items(), manager);
    assert AllNamed(m.services.Items());
    ObedientSettles(s, m.packageSnapshot.Items(), manager);
    ServicesAfterPass(left.units, m.serviceSnapshot.Items(), m.services.Items(), PackageReport(s, m, manager), "");
    assert ListPackages(Pass(s, m, manager).0) == ListPackages(left);
  }

  lemma {:induction false} LoopKeeps(s: System, m: Manifest, c: Settings, manager: Manager, n: nat)
    requires IsWellFormed(m) && IsResponsive(s.units) && IsObedient(manager)
    ensures var at := SystemAt(s, m, c, manager, n);
            IsResponsive(at.units) && (Converges(at, m, c, manager) <==> Converges(s, m, c, manager))
  {
    if n > 0 {
      LoopKeeps(s, m, c, manager, n - 1);
      PassKeeps(SystemAt(s, m, c, manager, n - 1), m, c, manager);
    }
  }

  lemma TickCleansIff(s: System, m: Manifest, c: Settings, manager: Manager)
    requires IsWellFormed(m) && IsResponsive(s.units) && IsObedient(manager) && c.remediate
    ensures Deviations(Tick(s, m, c, manager).1, m, c.Checks(), c.fast) == [] <==>
            Deviations(s, m, c.Checks(), c.fast) == [] || Converges(s, m, c, manager)
  {
    if Deviations(s, m, c.Checks(), c.fast) != [] {
      CleanAfterWholePassIff(s, m, c, manager);
    }
  }

  lemma NextVerdictIff(s: System, m: Manifest, c: Settings, manager: Manager, n: nat)
    requires IsWellFormed(m) && IsResponsive(s.units) && IsObedient(manager)
    requires c.remediate && n >= 1
    ensures VerdictAt(s, m, c, manager, n) == [] <==>
            VerdictAt(s, m, c, manager, n - 1) == [] || Converges(s, m, c, manager)
  {
    LoopKeeps(s, m, c, manager, n - 1);
    TickCleansIff(SystemAt(s, m, c, manager, n - 1), m, c, manager);
  }

  /**
   With remediation on, every verdict after the first is clean exactly when the first
   one is, or the condition held: one drift verdict at most, or drift for ever. The
   manager may remove more than it was asked to.
   */
  lemma {:induction false} LoopConvergesIff(s: System, m: Manifest, c: Settings, manager: Manager, n: nat)
    requires IsWellFormed(m) && IsResponsive(s.units) && IsObedient(manager)
    requires c.remediate && n >= 1
    ensures VerdictAt(s, m, c, manager, n) == [] <==>
            VerdictAt(s, m, c, manager, 0) == [] || Converges(s, m, c, manager)
  {
    NextVerdictIff(s, m, c, manager, n);
    if n > 1 {
      LoopConvergesIff(s, m, c, manager, n - 1);
    }
  }

  /** With remediation off the loop changes nothing and keeps emitting the same verdict. */
  lemma {:induction false} LoopOnlyWatches(s: System, m: Manifest, c: Settings, manager: Manager, n: nat)
    requires IsWellFormed(m) && !c.remediate
    ensures SystemAt(s, m, c, manager, n) == s && VerdictAt(s, m, c, manager, n) == VerdictAt(s, m, c, manager, 0)
  {
    if n > 0 {
      LoopOnlyWatches(s, m, c, manager, n - 1);
    }
  }

  /**
   The one-shot remediation enforces whatever the first verdict was, so its re-check
   is clean exactly under the condition; a system that was clean by luck of
   contradicting declarations can come out drifted.
   */
  method CheckAndRemediate(s: System, m: Manifest, c: Settings, manager: Manager, procs: int, steps: seq<Pool.Step>)
    returns (after: Verdict, next: System)
    requires IsWellFormed(m) && IsResponsive(s.units) && IsObedient(manager)
    requires IsSchedule(AfterRemoval(s, m.packageSnapshot.Items(), manager).fs, m, c, procs, steps)
    ensures next == Pass(s, m, manager).0 && after == VerdictOf(Deviations(next, m, c.Checks(), c.fast))
    ensures after.Clean? <==> Converges(s, m, c, manager)
  {
    CleanAfterWholePassIff(s, m, c, manager);
    var rep;
    next, rep := RunPass(s, m, manager);
    after := RunManifest(next, Some(m), c.configured, c.fast, procs, steps);
  }

  // ---- what the one drift verdict can hold ----

  /** What a pass is there to correct. */
  predicate IsEnforceable(d: Deviation) {
    d.InactiveService? || d.DisabledService? || d.UnauthorizedPackage? || d.UnauthorizedService?
  }

  lemma {:induction false} ServiceDeviationOf(u: Units, declared: seq<ManifestService>, d: Deviation)
    requires IsResponsive(u) && d in ServiceDeviations(u, declared)
    ensures d.InactiveService? || d.DisabledService?
  {
    if d !in CheckService(u, declared[0]) {
      ServiceDeviationOf(u, declared[1..], d);
    }
  }

  /** Two installed packages of that name. */
  predicate IsListedTwice(packages: seq<Package>, name: string) {
    exists p, q :: p in packages && q in packages && p != q && p.name == name && q.name == name
  }

  lemma PackageDrift(s: System, m: Manifest, manager: Manager, p: ManifestPackage, d: Deviation)
    requires IsObedient(manager) && d in CheckPackage(s.packages, p)
    requires CheckPackage(AfterRemoval(s, m.packageSnapshot.Items(), manager).packages, p) == []
    ensures d.VersionMismatch? && d.name == p.name && IsListedTwice(s.packages, d.name)
  {
    var left := AfterRemoval(s, m.packageSnapshot.Items(), manager).packages;
    ObedientSettles(s, m.packageSnapshot.Items(), manager);
    LookupListed(left, p.name);
    LookupListed(s.packages, p.name);
    NamesMembers(s.packages);
    var kept := Package(p.name, LookupVersion(left, p.name).value);
    assert kept in s.packages && kept.name in Names(s.packages);
    assert Package(p.name, LookupVersion(s.packages, p.name).value) != kept;
  }

  /**
   Where the loop converges, a drift verdict holds nothing but unauthorized packages
   and service states, with two exceptions that take a manager at work: one that
   changes files can set a deviating one right, and one that removes one of two
   packages of a name can uncover the recorded version.
   */
  lemma ConvergentDrift(s: System, m: Manifest, c: Settings, manager: Manager, d: Deviation)
    requires IsWellFormed(m) && IsResponsive(s.units) && IsObedient(manager)
    requires Converges(s, m, c, manager) && d in VerdictAt(s, m, c, manager, 0)
    ensures || IsEnforceable(d)
            || (d.OfFile? && AfterRemoval(s, m.packageSnapshot.Items(), manager).fs != s.fs)
            || (d.VersionMismatch? && IsListedTwice(s.packages, d.name))
  {
    DeviationKind(s, m, c.Checks(), c.fast, d);
    if d in PackageDeviations(s.packages, m.packages.Items()) {
      PackageDeviationsIff(s.packages, m.packages.Items(), d);
      var p :| p in m.packages.Items() && d in CheckPackage(s.packages, p);
      PackageDrift(s, m, manager, p, d);
    }
  }

  /** Files, declared packages, or something a pass is there to correct. */
  lemma DeviationKind(s: System, m: Manifest, checks: seq<string>, fast: bool, d: Deviation)
    requires IsWellFormed(m) && IsResponsive(s.units) && d in Deviations(s, m, checks, fast)
    ensures || d in FileDeviations(s.fs, m.files.Items(), checks, fast)
            || d in PackageDeviations(s.packages, m.packages.Items())
            || IsEnforceable(d)
  {
    var unlisted := UnauthorizedPackages(s, m.packageSnapshot.Items());
    var active := UnauthorizedServices(s.units, m.serviceSnapshot.Items());
    assert forall e :: e in unlisted ==> e.UnauthorizedPackage?;
    assert forall e :: e in active ==> e.UnauthorizedService?;
    if d in ServiceDeviations(s.units, m.services.Items()) {
      ServiceDeviationOf(s.units, m.services.Items(), d);
    }
  }

  /** With an exact manager there are none. */
  lemma ConvergentDriftExact(s: System, m: Manifest, c: Settings, manager: Manager, d: Deviation)
    requires IsWellFormed(m) && IsResponsive(s.units) && s.packagesListable && IsExact(manager)
    requires Converges(s, m, c, manager) && d in VerdictAt(s, m, c, manager, 0)
    ensures IsEnforceable(d)
  {
    DeviationKind(s, m, c.Checks(), c.fast, d);
    NoPackageDrift(s, m, c, manager);
  }

  lemma NoPackageDrift(s: System, m: Manifest, c: Settings, manager: Manager)
    requires IsWellFormed(m) && s.packagesListable && IsExact(manager) && Converges(s, m, c, manager)
    ensures PackageDeviations(s.packages, m.packages.Items()) == []
  {
    ExactConvergesIff(s, m, c, manager);
    PackagesCleanIff(s.packages, m.packages.Items());
  }

  // ---- the loop without the condition ----

  /** A manifest that wants `name` to run but does not list it among the services. */
  predicate IsOffended(m: Manifest, name: string) {
    && m.serviceSnapshot.Items() != [] && name !in m.serviceSnapshot.Items()
    && IsDeclared(m.services.Items(), name) && Decisive(m.services.Items(), name).running
  }

  lemma UnauthorizedIsReported(u: Units, snapshot: seq<string>, name: string)
    requires IsResponsive(u) && IsUnauthorized(u, snapshot, name)
    ensures UnauthorizedService(name) in UnauthorizedServices(u, snapshot)
  {
    OutsideMembers(Elements(snapshot), u.active);
    var found := Unlisted(snapshot, ListActive(u));
    var i :| 0 <= i < |found| && found[i] == name;
    assert UnauthorizedServices(u, snapshot)[i] == UnauthorizedService(name);
  }

  lemma OffenderIsDrift(s: System, m: Manifest, c: Settings, name: string)
    requires IsWellFormed(m) && IsResponsive(s.units) && IsOffended(m, name)
    ensures Deviations(s, m, c.Checks(), c.fast) != []
    ensures IsUnauthorized(s.units, m.serviceSnapshot.Items(), name) ==>
              UnauthorizedService(name) in Deviations(s, m, c.Checks(), c.fast)
  {
    var snapshot, services := m.serviceSnapshot.Items(), m.services.Items();
    if name in s.units.active {
      UnauthorizedIsReported(s.units, snapshot, name);
    } else {
      assert CheckService(s.units, Decisive(services, name)) != [];
      ServicesCleanIff(s.units, services);
    }
  }

  ghost predicate KeepsUnits(manager: Manager) {
    forall s: System, asked: seq<string> :: manager(s, asked).units == s.units
  }

  /** The managers that do not take systemd or, once nothing is unauthorized, a unit away. */
  ghost predicate IsGentle(manager: Manager) {
    IsObedient(manager) || KeepsUnits(manager)
  }

  lemma GentleAnswers(s: System, snapshot: seq<string>, manager: Manager)
    requires IsResponsive(s.units) && IsGentle(manager)
    ensures IsResponsive(AfterRemoval(s, snapshot, manager).units)
  {
    if IsObedient(manager) {
      ObedientSettles(s, snapshot, manager);
    }
  }

  /** In the pass after a pass the units are as the first one left them when its services are enforced. */
  lemma GentleLeavesUnits(before: System, m: Manifest, manager: Manager)
    requires IsWellFormed(m) && IsGentle(manager)
    ensures var at := Pass(before, m, manager).0;
            AfterRemoval(at, m.packageSnapshot.Items(), manager).units == at.units
  {
    if IsObedient(manager) {
      ObedientSettles(before, m.packageSnapshot.Items(), manager);
      assert ListPackages(Pass(before, m, manager).0)
          == ListPackages(AfterRemoval(before, m.packageSnapshot.Items(), manager));
    }
  }

  /** The pass after a pass stops and starts the offender. */
  lemma PassRestartsNext(before: System, m: Manifest, manager: Manager, name: string)
    requires IsWellFormed(m) && IsGentle(manager)
    requires IsResponsive(AfterRemoval(before, m.packageSnapshot.Items(), manager).units)
    requires IsOffended(m, name)
    ensures var at := Pass(before, m, manager).0;
            && IsResponsive(at.units) && IsUnauthorized(at.units, m.serviceSnapshot.Items(), name)
            && name in Pass(at, m, manager).1.stopped && name in Pass(at, m, manager).1.started
  {
    var snapshot, services := m.serviceSnapshot.Items(), m.services.Items();
    assert AllNamed(services);
    var left, at := AfterRemoval(before, m.packageSnapshot.Items(), manager), Pass(before, m, manager).0;
    ServicesAfterPass(left.units, snapshot, services, PackageReport(before, m, manager), name);
    GentleLeavesUnits(before, m, manager);
    PassRestarts(at.units, snapshot, services, PackageReport(at, m, manager), name);
  }

  /** What the service brings about at a system the loop has come to. */
  ghost predicate RestartsAt(at: System, m: Manifest, c: Settings, manager: Manager, name: string)
    requires IsWellFormed(m)
  {
    && UnauthorizedService(name) in Deviations(at, m, c.Checks(), c.fast)
    && name in Pass(at, m, manager).1.stopped && name in Pass(at, m, manager).1.started
  }

  lemma OffenderNext(before: System, m: Manifest, c: Settings, manager: Manager, name: string)
    requires IsWellFormed(m) && IsResponsive(before.units) && IsGentle(manager) && c.remediate && IsOffended(m, name)
    ensures var at := Tick(before, m, c, manager).1;
            IsResponsive(at.units) && RestartsAt(at, m, c, manager, name)
  {
    OffenderIsDrift(before, m, c, name);
    GentleAnswers(before, m.packageSnapshot.Items(), manager);
    PassRestartsNext(before, m, manager, name);
    OffenderIsDrift(Pass(before, m, manager).0, m, c, name);
  }

  lemma TickAnswers(s: System, m: Manifest, c: Settings, manager: Manager)
    requires IsWellFormed(m) && IsResponsive(s.units) && IsGentle(manager)
    ensures IsResponsive(Tick(s, m, c, manager).1.units)
  {
    var left := AfterRemoval(s, m.packageSnapshot.Items(), manager);
    assert AllNamed(m.services.Items());
    GentleAnswers(s, m.packageSnapshot.Items(), manager);
    ServicesAfterPass(left.units, m.serviceSnapshot.Items(), m.services.Items(), PackageReport(s, m, manager), "");
  }

  /** Systemd goes on answering. */
  lemma {:induction false} LoopAnswers(s: System, m: Manifest, c: Settings, manager: Manager, n: nat)
    requires IsWellFormed(m) && IsResponsive(s.units) && IsGentle(manager)
    ensures IsResponsive(SystemAt(s, m, c, manager, n).units)
  {
    if n > 0 {
      LoopAnswers(s, m, c, manager, n - 1);
      TickAnswers(SystemAt(s, m, c, manager, n - 1), m, c, manager);
    }
  }

  /**
   A declared-running service missing from a non-empty snapshot never settles: every
   verdict is drift, and from the second tick on it flags the service, which each pass
   stops and starts.
   */
  lemma OffenderRestartsForever(s: System, m: Manifest, c: Settings, manager: Manager, name: string, n: nat)
    requires IsWellFormed(m) && IsResponsive(s.units) && IsGentle(manager) && c.remediate && IsOffended(m, name)
    ensures VerdictAt(s, m, c, manager, n) != []
    ensures n >= 1 ==> RestartsAt(SystemAt(s, m, c, manager, n), m, c, manager, name)
  {
    LoopAnswers(s, m, c, manager, n);
    if n > 0 {
      LoopAnswers(s, m, c, manager, n - 1);
      OffenderNext(SystemAt(s, m, c, manager, n - 1), m, c, manager, name);
    }
    OffenderIsDrift(SystemAt(s, m, c, manager, n), m, c, name);
  }
}
