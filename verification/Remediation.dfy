/**
 One enforcement pass: packages outside the snapshot are removed, services outside
 it stopped and disabled, declared services brought to their recorded state.
 */
module Remediation {
  import opened Wrappers
  import opened Manifests
  import opened Sequences
  import opened FileChecks
  import opened Systems

  datatype Report = Report(
    packagesRemoved: seq<string>,
    started: seq<string>,
    stopped: seq<string>,
    enabled: seq<string>,
    disabled: seq<string>)
  {
    predicate Empty() {
      packagesRemoved == [] && started == [] && stopped == [] && enabled == [] && disabled == []
    }
  }

  const NOTHING := Report([], [], [], [], [])

  /** The units on which each systemctl command fails. */
  datatype Faults = Faults(start: set<string>, stop: set<string>, enable: set<string>, disable: set<string>)

  const NO_FAULTS := Faults({}, {}, {}, {})

  /**
   The system after the package manager was asked to remove some names: any outcome
   whatever. A purge takes configuration files along, a removal can stop units, and
   the next listing can fail.
   */
  type Manager = (System, seq<string>) -> System

  // ---- systemctl ----

  function Without(s: seq<Name>, name: string): (r: seq<Name>)
    ensures forall x :: x in r <==> x in s && x != name
  {
    if s == [] then []
    else
      assert s == [s[0]] + s[1..];
      (if s[0] == name then [] else [s[0]]) + Without(s[1..], name)
  }

  function Stop(u: Units, f: Faults, name: string): Units {
    if u.present && name !in f.stop then u.(active := Without(u.active, name)) else u
  }

  function Disable(u: Units, f: Faults, name: string): Units {
    if u.present && name !in f.disable then u.(enabled := u.enabled - {name}) else u
  }

  predicate CanStart(u: Units, f: Faults, name: string) {
    u.present && name !in f.start
  }

  predicate CanEnable(u: Units, f: Faults, name: string) {
    u.present && name !in f.enable
  }

  function Start(u: Units, name: Name): Units {
    if name in u.active then u else u.(active := u.active + [name])
  }

  function Enable(u: Units, name: string): Units {
    u.(enabled := u.enabled + {name})
  }

  // ---- the pass over services, as a fold ----

  /** Stopping and disabling is reported whether or not the commands succeeded. */
  function StopAll(u: Units, f: Faults, names: seq<string>, rep: Report): (Units, Report)
    decreases |names|
  {
    if names == [] then (u, rep)
    else StopAll(Disable(Stop(u, f, names[0]), f, names[0]), f, names[1..], rep.(stopped := rep.stopped + [names[0]]))
  }

  function EnforceRunning(u: Units, f: Faults, d: ManifestService, rep: Report): (Units, Report)
    requires d.name != ""
  {
    if d.running then
      if !Confirms(u, IsActive, d.name) && CanStart(u, f, d.name) then
        (Start(u, d.name), rep.(started := rep.started + [d.name]))
      else (u, rep)
    else if Confirms(u, IsActive, d.name) then
      (Stop(u, f, d.name), rep.(stopped := rep.stopped + [d.name]))
    else (u, rep)
  }

  function EnforceEnabled(u: Units, f: Faults, d: ManifestService, rep: Report): (Units, Report) {
    if d.enabled then
      if !Confirms(u, IsEnabled, d.name) && CanEnable(u, f, d.name) then
        (Enable(u, d.name), rep.(enabled := rep.enabled + [d.name]))
      else (u, rep)
    else if Confirms(u, IsEnabled, d.name) then
      (Disable(u, f, d.name), rep.(disabled := rep.disabled + [d.name]))
    else (u, rep)
  }

  function Enforce(u: Units, f: Faults, d: ManifestService, rep: Report): (Units, Report)
    requires d.name != ""
  {
    var r := EnforceRunning(u, f, d, rep);
    EnforceEnabled(r.0, f, d, r.1)
  }

  ghost predicate AllNamed(declared: seq<ManifestService>) {
    forall d :: d in declared ==> d.name != ""
  }

  function EnforceAll(u: Units, f: Faults, declared: seq<ManifestService>, rep: Report): (Units, Report)
    requires AllNamed(declared)
    decreases |declared|
  {
    if declared == [] then (u, rep)
    else
      assert declared[0] in declared && AllNamed(declared[1..]);
      var r := Enforce(u, f, declared[0], rep);
      EnforceAll(r.0, f, declared[1..], r.1)
  }

  function PassServices(u: Units, f: Faults, snapshot: seq<string>, declared: seq<ManifestService>, rep: Report)
    : (Units, Report)
    requires AllNamed(declared)
  {
    var r := StopAll(u, f, Unlisted(snapshot, ListActive(u)), rep);
    EnforceAll(r.0, f, declared, r.1)
  }

  // ---- packages ----

  /** The system once the manager was asked to remove what the snapshot does not list, if anything. */
  function AfterRemoval(s: System, snapshot: seq<string>, manager: Manager): System {
    var extra := Unlisted(snapshot, ListPackages(s));
    if extra == [] then s else manager(s, extra)
  }

  /** The unauthorized packages that a second listing no longer shows. */
  function RemovedPackages(snapshot: seq<string>, before: Option<seq<string>>, after: Option<seq<string>>)
    : seq<string>
  {
    if after.None? then [] else Outside(Elements(after.value), Unlisted(snapshot, before))
  }

  /**
   Whatever the manager did, a successful second listing makes the report exact: the
   entries installed before, outside the snapshot and gone, in listing order.
   */
  lemma RemovedPackagesExact(snapshot: seq<string>, before: seq<string>, after: seq<string>)
    ensures var removed := RemovedPackages(snapshot, Some(before), Some(after));
            && (forall p :: p in removed <==> snapshot != [] && p in before && p !in snapshot && p !in after)
            && IsSubsequence(removed, Unlisted(snapshot, Some(before)))
            && (snapshot != [] ==> IsSubsequence(Unlisted(snapshot, Some(before)), before))
  {
    OutsideMembers(Elements(snapshot), before);
    OutsideMembers(Elements(after), Unlisted(snapshot, Some(before)));
  }

  /** The entries of `asked` that the later listing no longer shows. */
  method Reconcile(asked: seq<string>, listed: seq<string>) returns (removed: seq<string>)
    ensures removed == Outside(Elements(listed), asked)
  {
    var still: set<string> := {};
    for i := 0 to |listed|
      invariant still == Elements(listed[..i])
    {
      assert listed[..i + 1] == listed[..i] + [listed[i]];
      still := still + {listed[i]};
    }
    assert listed[..|listed|] == listed;
    removed := [];
    for i := 0 to |asked|
      invariant removed + Outside(still, asked[i..]) == Outside(still, asked)
    {
      assert asked[i..][1..] == asked[i + 1..];
      if asked[i] !in still {
        removed := removed + [asked[i]];
      }
    }
  }

  // ---- the machine ----

  /** The live system the pass changes in place; `requests` are the removals it asked for. */
  class Machine {
    var system: System
    var requests: seq<seq<string>>
    const faults: Faults
    const manager: Manager

    constructor (system: System, faults: Faults, manager: Manager)
      ensures this.system == system && requests == [] && this.faults == faults && this.manager == manager
    {
      this.system := system;
      requests := [];
      this.faults := faults;
      this.manager := manager;
    }

    /** The manager may refuse, remove more than asked, install, change files and units, or fail. */
    method RemovePackages(asked: seq<string>)
      requires asked != []
      modifies this
      ensures system == manager(old(system), asked) && requests == old(requests) + [asked]
    {
      system := manager(system, asked);
      requests := requests + [asked];
    }

    /** Asks once for everything unauthorized to go, and reports what a second listing no longer shows. */
    method RemediatePackages(snapshot: seq<string>) returns (removed: seq<string>)
      modifies this
      ensures system == AfterRemoval(old(system), snapshot, manager)
      ensures removed == RemovedPackages(snapshot, ListPackages(old(system)), ListPackages(system))
      ensures var extra := Unlisted(snapshot, ListPackages(old(system)));
              requests == old(requests) + if extra == [] then [] else [extra]
    {
      removed := [];
      if |snapshot| == 0 {
        return;
      }
      var current := ListPackages(system);
      if current.None? {
        return;
      }
      var unauthorized := UnauthorizedSet(snapshot, current.value);
      if |unauthorized| == 0 {
        return;
      }
      RemovePackages(unauthorized);
      var after := ListPackages(system);
      if after.None? {
        return;
      }
      removed := Reconcile(unauthorized, after.value);
    }

    method RemediateServices(snapshot: seq<string>, declared: seq<ManifestService>, rep: Report) returns (out: Report)
      requires AllNamed(declared)
      modifies this`system
      ensures var r := PassServices(old(system).units, faults, snapshot, declared, rep);
              system == old(system).(units := r.0) && out == r.1
    {
      out := rep;
      ghost var start := system;
      if |snapshot| > 0 {
        var current := ListActive(system.units);
        if current.Some? {
          var extra := UnauthorizedSet(snapshot, current.value);
          for i := 0 to |extra|
            invariant system == start.(units := system.units)
            invariant StopAll(system.units, faults, extra[i..], out) == StopAll(start.units, faults, extra, rep)
          {
            assert extra[i..][0] == extra[i] && extra[i..][1..] == extra[i + 1..];
            system := system.(units := Stop(system.units, faults, extra[i]));
            system := system.(units := Disable(system.units, faults, extra[i]));
            out := out.(stopped := out.stopped + [extra[i]]);
          }
        }
      }
      ghost var stopped, reported := system.units, out;
      for i := 0 to |declared|
        invariant system == start.(units := system.units)
        invariant AllNamed(declared[i..])
        invariant EnforceAll(system.units, faults, declared[i..], out)
               == EnforceAll(stopped, faults, declared, reported)
      {
        assert declared[i..][0] == declared[i] && declared[i..][1..] == declared[i + 1..];
        out := EnforceService(declared[i], out);
      }
    }

    /** One declared service: start or stop it, then enable or disable it. */
    method EnforceService(d: ManifestService, rep: Report) returns (out: Report)
      requires d.name != ""
      modifies this`system
      ensures var r := Enforce(old(system).units, faults, d, rep);
              system == old(system).(units := r.0) && out == r.1
    {
      out := rep;
      if d.running {
        if !Confirms(system.units, IsActive, d.name) {
          if CanStart(system.units, faults, d.name) {
            system := system.(units := Start(system.units, d.name));
            out := out.(started := out.started + [d.name]);
          }
        }
      } else if Confirms(system.units, IsActive, d.name) {
        system := system.(units := Stop(system.units, faults, d.name));
        out := out.(stopped := out.stopped + [d.name]);
      }
      if d.enabled {
        if !Confirms(system.units, IsEnabled, d.name) {
          if CanEnable(system.units, faults, d.name) {
            system := system.(units := Enable(system.units, d.name));
            out := out.(enabled := out.enabled + [d.name]);
          }
        }
      } else if Confirms(system.units, IsEnabled, d.name) {
        system := system.(units := Disable(system.units, faults, d.name));
        out := out.(disabled := out.disabled + [d.name]);
      }
    }

    /** Packages first, then services, in one report. */
    method Remediate(m: Manifest) returns (rep: Report)
      requires AllNamed(m.services.Items())
      modifies this
      ensures var left := AfterRemoval(old(system), m.packageSnapshot.Items(), manager);
              var removed := RemovedPackages(m.packageSnapshot.Items(), ListPackages(old(system)), ListPackages(left));
              var r := PassServices(left.units, faults, m.serviceSnapshot.Items(), m.services.Items(),
                                    NOTHING.(packagesRemoved := removed));
              system == left.(units := r.0) && rep == r.1
    {
      var removed := RemediatePackages(m.packageSnapshot.Items());
      rep := RemediateServices(m.serviceSnapshot.Items(), m.services.Items(), NOTHING.(packagesRemoved := removed));
    }
  }

  // ---- the exact state after a pass whose commands succeed ----

  /** A systemd that answers every query and lists its units. */
  predicate IsResponsive(u: Units) {
    u.present && u.listable && u.hidden == {}
  }

  predicate IsDeclared(declared: seq<ManifestService>, name: string) {
    exists d :: d in declared && d.name == name
  }

  /** The declaration that counts for a name: the last one. */
  function Decisive(declared: seq<ManifestService>, name: string): (d: ManifestService)
    requires IsDeclared(declared, name)
    ensures d in declared && d.name == name
  {
    var init, last := declared[..|declared| - 1], declared[|declared| - 1];
    assert declared == init + [last];
    if last.name == name then last else Decisive(init, name)
  }

  lemma {:induction false} DecisiveOfTail(declared: seq<ManifestService>, name: string)
    requires declared != [] && IsDeclared(declared[1..], name)
    ensures IsDeclared(declared, name) && Decisive(declared, name) == Decisive(declared[1..], name)
  {
    assert forall d :: d in declared[1..] ==> d in declared;
    var init, last := declared[..|declared| - 1], declared[|declared| - 1];
    var tail := declared[1..];
    assert tail[|tail| - 1] == last && tail[..|tail| - 1] == init[1..];
    if last.name != name {
      assert tail == init[1..] + [last];
      DecisiveOfTail(init, name);
    }
  }

  lemma {:induction false} DecisiveOfHead(declared: seq<ManifestService>)
    requires declared != [] && !IsDeclared(declared[1..], declared[0].name)
    ensures IsDeclared(declared, declared[0].name) && Decisive(declared, declared[0].name) == declared[0]
  {
    assert declared[0] in declared;
    var d := Decisive(declared, declared[0].name);
    assert declared == [declared[0]] + declared[1..];
  }

  lemma {:induction false} StopAllState(u: Units, f: Faults, names: seq<string>, rep: Report)
    requires IsResponsive(u)
    ensures var r := StopAll(u, f, names, rep);
            && r.0 == u.(active := r.0.active, enabled := r.0.enabled)
            && (forall n :: n in r.0.active <==> n in u.active && !(n in names && n !in f.stop))
            && (forall n :: n in r.0.enabled <==> n in u.enabled && !(n in names && n !in f.disable))
            && r.1 == rep.(stopped := rep.stopped + names)
    decreases |names|
  {
    if names != [] {
      var next := Disable(Stop(u, f, names[0]), f, names[0]);
      var rest := rep.(stopped := rep.stopped + [names[0]]);
      StopAllState(next, f, names[1..], rest);
      assert forall n :: n in names <==> n == names[0] || n in names[1..];
      assert rest.stopped + names[1..] == rep.stopped + names;
    }
  }

  lemma DecisiveCons(declared: seq<ManifestService>, n: string)
    requires declared != []
    ensures IsDeclared(declared, n) <==> n == declared[0].name || IsDeclared(declared[1..], n)
    ensures IsDeclared(declared[1..], n) ==> Decisive(declared, n) == Decisive(declared[1..], n)
    ensures n == declared[0].name && !IsDeclared(declared[1..], n) ==> Decisive(declared, n) == declared[0]
  {
    assert declared == [declared[0]] + declared[1..];
    if IsDeclared(declared[1..], n) {
      DecisiveOfTail(declared, n);
    } else if n == declared[0].name {
      DecisiveOfHead(declared);
    }
  }

  lemma EnforceState(u: Units, d: ManifestService, rep: Report)
    requires IsResponsive(u) && d.name != ""
    ensures var r := Enforce(u, NO_FAULTS, d, rep);
            && r.0 == u.(active := r.0.active, enabled := r.0.enabled)
            && (forall n :: n in r.0.active <==> if n == d.name then d.running else n in u.active)
            && (forall n :: n in r.0.enabled <==> if n == d.name then d.enabled else n in u.enabled)
  {
  }

  lemma {:induction false} EnforceAllState(u: Units, declared: seq<ManifestService>, rep: Report)
    requires IsResponsive(u) && AllNamed(declared)
    ensures var r := EnforceAll(u, NO_FAULTS, declared, rep);
            && r.0 == u.(active := r.0.active, enabled := r.0.enabled)
            && (forall n :: n in r.0.active <==>
                              if IsDeclared(declared, n) then Decisive(declared, n).running else n in u.active)
            && (forall n :: n in r.0.enabled <==>
                              if IsDeclared(declared, n) then Decisive(declared, n).enabled else n in u.enabled)
    decreases |declared|
  {
    if declared != [] {
      var d, tail := declared[0], declared[1..];
      assert d in declared && AllNamed(tail);
      var mid := Enforce(u, NO_FAULTS, d, rep);
      var r := EnforceAll(mid.0, NO_FAULTS, tail, mid.1);
      EnforceState(u, d, rep);
      EnforceAllState(mid.0, tail, mid.1);
      forall n
        ensures n in r.0.active <==> if IsDeclared(declared, n) then Decisive(declared, n).running else n in u.active
        ensures n in r.0.enabled <==> if IsDeclared(declared, n) then Decisive(declared, n).enabled else n in u.enabled
      {
        DecisiveCons(declared, n);
      }
    }
  }

  /** Active outside a non-empty snapshot. */
  predicate IsUnauthorized(u: Units, snapshot: seq<string>, name: string) {
    snapshot != [] && name in u.active && name !in snapshot
  }

  /**
   After a pass each declared service is as recorded (by its last declaration),
   each undeclared active one outside a non-empty snapshot is stopped and disabled,
   and every other service is as it was.
   */
  lemma ServicesAfterPass(u: Units, snapshot: seq<string>, declared: seq<ManifestService>, rep: Report, n: string)
    requires IsResponsive(u) && AllNamed(declared)
    ensures var next := PassServices(u, NO_FAULTS, snapshot, declared, rep).0;
            && IsResponsive(next)
            && (n in next.active <==>
                  if IsDeclared(declared, n) then Decisive(declared, n).running
                  else n in u.active && !IsUnauthorized(u, snapshot, n))
            && (n in next.enabled <==>
                  if IsDeclared(declared, n) then Decisive(declared, n).enabled
                  else n in u.enabled && !IsUnauthorized(u, snapshot, n))
  {
    var extra := Unlisted(snapshot, ListActive(u));
    StopAllState(u, NO_FAULTS, extra, rep);
    var r := StopAll(u, NO_FAULTS, extra, rep);
    EnforceAllState(r.0, declared, r.1);
    OutsideMembers(Elements(snapshot), u.active);
    assert n in extra <==> IsUnauthorized(u, snapshot, n);
  }

  // ---- when the next check is clean ----

  predicate RunsAuthorized(snapshot: seq<string>, declared: seq<ManifestService>) {
    snapshot == [] || forall d :: d in declared && Decisive(declared, d.name).running ==> d.name in snapshot
  }

  /** No declaration asks for more than the last one of its name. */
  predicate LastSuffices(declared: seq<ManifestService>) {
    forall d :: d in declared ==>
                  && (d.running ==> Decisive(declared, d.name).running)
                  && (d.enabled ==> Decisive(declared, d.name).enabled)
  }

  function ServiceVerdict(u: Units, snapshot: seq<string>, declared: seq<ManifestService>): seq<Deviation> {
    ServiceDeviations(u, declared) + UnauthorizedServices(u, snapshot)
  }

  lemma ServiceVerdictClean(u: Units, snapshot: seq<string>, declared: seq<ManifestService>)
    requires IsResponsive(u)
    ensures ServiceVerdict(u, snapshot, declared) == [] <==>
            && (forall d :: d in declared ==> (d.running ==> d.name in u.active) && (d.enabled ==> d.name in u.enabled))
            && (snapshot == [] || forall n :: n in u.active ==> n in snapshot)
  {
    ServicesCleanIff(u, declared);
    UnlistedEmptyIff(snapshot, ListActive(u));
    forall d | d in declared
      ensures CheckService(u, d) == [] <==> (d.running ==> d.name in u.active) && (d.enabled ==> d.name in u.enabled)
    {
    }
  }

  /** The check that follows a pass is clean exactly under a condition on the manifest alone. */
  lemma CleanAfterPassIff(u: Units, snapshot: seq<string>, declared: seq<ManifestService>, rep: Report)
    requires IsResponsive(u) && AllNamed(declared)
    ensures var next := PassServices(u, NO_FAULTS, snapshot, declared, rep).0;
            ServiceVerdict(next, snapshot, declared) == [] <==>
            LastSuffices(declared) && RunsAuthorized(snapshot, declared)
  {
    var next := PassServices(u, NO_FAULTS, snapshot, declared, rep).0;
    forall n
      ensures n in next.active <==>
              if IsDeclared(declared, n) then Decisive(declared, n).running
              else n in u.active && !IsUnauthorized(u, snapshot, n)
      ensures n in next.enabled <==>
              if IsDeclared(declared, n) then Decisive(declared, n).enabled
              else n in u.enabled && !IsUnauthorized(u, snapshot, n)
      ensures IsResponsive(next)
    {
      ServicesAfterPass(u, snapshot, declared, rep, n);
    }
    assert IsResponsive(next) by {
      ServicesAfterPass(u, snapshot, declared, rep, "");
    }
    ServiceVerdictClean(next, snapshot, declared);
    assert forall d :: d in declared ==> IsDeclared(declared, d.name);
  }

  predicate DistinctNames(declared: seq<ManifestService>) {
    forall i, j :: 0 <= i < j < |declared| ==> declared[i].name != declared[j].name
  }

  lemma DistinctDecisive(declared: seq<ManifestService>, d: ManifestService)
    requires DistinctNames(declared) && d in declared
    ensures IsDeclared(declared, d.name) && Decisive(declared, d.name) == d
  {
    var e := Decisive(declared, d.name);
    var i :| 0 <= i < |declared| && declared[i] == d;
    var j :| 0 <= j < |declared| && declared[j] == e;
  }

  /** With distinct names: exactly when every declared-running service is in the snapshot, or it is empty. */
  lemma CleanAfterPassDistinct(u: Units, snapshot: seq<string>, declared: seq<ManifestService>, rep: Report)
    requires IsResponsive(u) && AllNamed(declared) && DistinctNames(declared)
    ensures var next := PassServices(u, NO_FAULTS, snapshot, declared, rep).0;
            ServiceVerdict(next, snapshot, declared) == [] <==>
            snapshot == [] || forall d :: d in declared && d.running ==> d.name in snapshot
  {
    CleanAfterPassIff(u, snapshot, declared, rep);
    forall d | d in declared
      ensures Decisive(declared, d.name) == d
    {
      DistinctDecisive(declared, d);
    }
  }

  // ---- when the next pass does nothing ----

  /** Nothing for a pass to do. */
  predicate IsSettled(u: Units, snapshot: seq<string>, declared: seq<ManifestService>) {
    && (snapshot == [] || forall n :: n in u.active ==> n in snapshot)
    && forall d :: d in declared ==> (d.name in u.active <==> d.running) && (d.name in u.enabled <==> d.enabled)
  }

  ghost predicate Grew(a: Report, b: Report) {
    && |a.started| <= |b.started| && |a.stopped| <= |b.stopped|
    && |a.enabled| <= |b.enabled| && |a.disabled| <= |b.disabled|
    && a.packagesRemoved == b.packagesRemoved
  }

  lemma {:induction false} EnforceAllQuietIff(u: Units, declared: seq<ManifestService>, rep: Report)
    requires IsResponsive(u) && AllNamed(declared)
    ensures var r := EnforceAll(u, NO_FAULTS, declared, rep);
            && Grew(rep, r.1)
            && (r.1 == rep <==>
                  forall d :: d in declared ==>
                                (d.name in u.active <==> d.running) && (d.name in u.enabled <==> d.enabled))
            && (r.1 == rep ==> r.0 == u)
    decreases |declared|
  {
    if declared != [] {
      var d, tail := declared[0], declared[1..];
      assert d in declared && AllNamed(tail);
      var r := Enforce(u, NO_FAULTS, d, rep);
      EnforceAllQuietIff(r.0, tail, r.1);
      assert forall e :: e in declared <==> e == d || e in tail;
      var quiet := (d.name in u.active <==> d.running) && (d.name in u.enabled <==> d.enabled);
      assert quiet ==> r == (u, rep);
      assert Grew(rep, r.1);
      if !quiet {
        assert |rep.started| < |r.1.started| || |rep.stopped| < |r.1.stopped| || |rep.enabled| < |r.1.enabled|
               || |rep.disabled| < |r.1.disabled|;
      }
    }
  }

  /** A pass reports nothing exactly on a settled system, which it leaves alone. */
  lemma QuietIffSettled(u: Units, snapshot: seq<string>, declared: seq<ManifestService>, rep: Report)
    requires IsResponsive(u) && AllNamed(declared)
    ensures var r := PassServices(u, NO_FAULTS, snapshot, declared, rep);
            && (r.1 == rep <==> IsSettled(u, snapshot, declared))
            && (r.1 == rep ==> r.0 == u)
            && r.1.packagesRemoved == rep.packagesRemoved
            && Grew(rep, r.1)
  {
    var extra := Unlisted(snapshot, ListActive(u));
    StopAllState(u, NO_FAULTS, extra, rep);
    var r := StopAll(u, NO_FAULTS, extra, rep);
    EnforceAllQuietIff(r.0, declared, r.1);
    UnlistedEmptyIff(snapshot, ListActive(u));
    if extra == [] {
      assert r == (u, rep);
    } else {
      assert |r.1.stopped| > |rep.stopped|;
    }
  }

  /** Declarations of the same name agree, and what they ask to run is authorized. */
  predicate IsStable(snapshot: seq<string>, declared: seq<ManifestService>) {
    && (forall d, e :: d in declared && e in declared && d.name == e.name ==>
                         d.running == e.running && d.enabled == e.enabled)
    && (snapshot == [] || forall d :: d in declared && d.running ==> d.name in snapshot)
  }

  /** One pass settles the services exactly when the manifest is stable. */
  lemma SettledAfterPassIff(u: Units, snapshot: seq<string>, declared: seq<ManifestService>, rep: Report)
    requires IsResponsive(u) && AllNamed(declared)
    ensures IsSettled(PassServices(u, NO_FAULTS, snapshot, declared, rep).0, snapshot, declared) <==>
            IsStable(snapshot, declared)
  {
    var next := PassServices(u, NO_FAULTS, snapshot, declared, rep).0;
    forall n
      ensures n in next.active <==>
              if IsDeclared(declared, n) then Decisive(declared, n).running
              else n in u.active && !IsUnauthorized(u, snapshot, n)
      ensures n in next.enabled <==>
              if IsDeclared(declared, n) then Decisive(declared, n).enabled
              else n in u.enabled && !IsUnauthorized(u, snapshot, n)
    {
      ServicesAfterPass(u, snapshot, declared, rep, n);
    }
    assert forall d :: d in declared ==> IsDeclared(declared, d.name);
  }

  // ---- when the condition fails ----

  lemma EnforceKeeps(u: Units, d: ManifestService, rep: Report)
    requires d.name != ""
    ensures var r := Enforce(u, NO_FAULTS, d, rep).1;
            && (forall x :: x in rep.stopped ==> x in r.stopped)
            && (forall x :: x in rep.started ==> x in r.started)
  {
  }

  lemma EnforceStarts(u: Units, d: ManifestService, rep: Report, n: string)
    requires IsResponsive(u) && d.name != "" && n !in u.active
    ensures var r := Enforce(u, NO_FAULTS, d, rep);
            IsResponsive(r.0) && (n in r.0.active ==> n in r.1.started)
  {
    EnforceState(u, d, rep);
    if n in Enforce(u, NO_FAULTS, d, rep).0.active {
      assert n == d.name && d.running;
    }
  }

  lemma {:induction false} EnforceAllStarts(u: Units, declared: seq<ManifestService>, rep: Report, n: string)
    requires IsResponsive(u) && AllNamed(declared) && n !in u.active
    ensures var r := EnforceAll(u, NO_FAULTS, declared, rep);
            n in r.0.active ==> n in r.1.started
    decreases |declared|
  {
    if declared != [] {
      var d, tail := declared[0], declared[1..];
      assert d in declared && AllNamed(tail);
      var r := Enforce(u, NO_FAULTS, d, rep);
      EnforceStarts(u, d, rep, n);
      if n in r.0.active {
        EnforceAllKeeps(r.0, tail, r.1);
      } else {
        EnforceAllStarts(r.0, tail, r.1, n);
      }
    }
  }

  lemma {:induction false} EnforceAllKeeps(u: Units, declared: seq<ManifestService>, rep: Report)
    requires AllNamed(declared)
    ensures var r := EnforceAll(u, NO_FAULTS, declared, rep);
            && (forall x :: x in rep.stopped ==> x in r.1.stopped)
            && (forall x :: x in rep.started ==> x in r.1.started)
    decreases |declared|
  {
    if declared != [] {
      assert declared[0] in declared && AllNamed(declared[1..]);
      var r := Enforce(u, NO_FAULTS, declared[0], rep);
      EnforceKeeps(u, declared[0], rep);
      EnforceAllKeeps(r.0, declared[1..], r.1);
    }
  }

  /** An active service outside the snapshot that must run is stopped and started by the same pass. */
  lemma PassRestarts(u: Units, snapshot: seq<string>, declared: seq<ManifestService>, rep: Report, n: string)
    requires IsResponsive(u) && AllNamed(declared)
    requires IsUnauthorized(u, snapshot, n) && IsDeclared(declared, n) && Decisive(declared, n).running
    ensures var r := PassServices(u, NO_FAULTS, snapshot, declared, rep);
            n in r.1.stopped && n in r.1.started && IsUnauthorized(r.0, snapshot, n)
  {
    var extra := Unlisted(snapshot, ListActive(u));
    OutsideMembers(Elements(snapshot), u.active);
    StopAllState(u, NO_FAULTS, extra, rep);
    var r := StopAll(u, NO_FAULTS, extra, rep);
    ServicesAfterPass(u, snapshot, declared, rep, n);
    EnforceAllStarts(r.0, declared, r.1, n);
    EnforceAllKeeps(r.0, declared, r.1);
  }

  // ---- without systemctl, and units listed once ----

  lemma {:induction false} EnforceAllAbsent(u: Units, f: Faults, declared: seq<ManifestService>, rep: Report)
    requires !u.present && AllNamed(declared)
    ensures EnforceAll(u, f, declared, rep) == (u, rep)
  {
    if declared != [] {
      assert declared[0] in declared && AllNamed(declared[1..]);
      EnforceAllAbsent(u, f, declared[1..], rep);
    }
  }

  /** Where there is no systemctl a pass over the services does and reports nothing. */
  lemma AbsentSystemctlKeeps(u: Units, f: Faults, snapshot: seq<string>, declared: seq<ManifestService>, rep: Report)
    requires !u.present && AllNamed(declared)
    ensures PassServices(u, f, snapshot, declared, rep) == (u, rep)
    ensures forall n :: Stop(u, f, n) == u && Disable(u, f, n) == u
  {
    assert Outside(Elements(snapshot), []) == [];
    EnforceAllAbsent(u, f, declared, rep);
  }

  lemma {:induction false} WithoutDistinct(s: seq<Name>, name: string)
    requires NoRepeats(s)
    ensures NoRepeats(Without(s, name))
  {
    if s != [] {
      var rest := Without(s[1..], name);
      WithoutDistinct(s[1..], name);
      assert forall i :: 0 <= i < |s[1..]| ==> s[1..][i] == s[i + 1] != s[0];
      assert s[0] !in rest;
      assert s[0] == name ==> Without(s, name) == rest;
    }
  }

  lemma {:induction false} StopAllDistinct(u: Units, f: Faults, names: seq<string>, rep: Report)
    requires NoRepeats(u.active)
    ensures NoRepeats(StopAll(u, f, names, rep).0.active)
    decreases |names|
  {
    if names != [] {
      WithoutDistinct(u.active, names[0]);
      StopAllDistinct(Disable(Stop(u, f, names[0]), f, names[0]), f, names[1..],
                      rep.(stopped := rep.stopped + [names[0]]));
    }
  }

  lemma {:induction false} EnforceAllDistinct(u: Units, f: Faults, declared: seq<ManifestService>, rep: Report)
    requires NoRepeats(u.active) && AllNamed(declared)
    ensures NoRepeats(EnforceAll(u, f, declared, rep).0.active)
    decreases |declared|
  {
    if declared != [] {
      var d := declared[0];
      assert d in declared && AllNamed(declared[1..]);
      WithoutDistinct(u.active, d.name);
      var r := Enforce(u, f, d, rep);
      EnforceAllDistinct(r.0, f, declared[1..], r.1);
    }
  }

  /** A pass never lists a unit twice, whichever commands fail and whichever queries are refused. */
  lemma PassKeepsDistinct(u: Units, f: Faults, snapshot: seq<string>, declared: seq<ManifestService>, rep: Report)
    requires NoRepeats(u.active) && AllNamed(declared)
    ensures NoRepeats(PassServices(u, f, snapshot, declared, rep).0.active)
  {
    var extra := Unlisted(snapshot, ListActive(u));
    StopAllDistinct(u, f, extra, rep);
    var r := StopAll(u, f, extra, rep);
    EnforceAllDistinct(r.0, f, declared, r.1);
  }
}
