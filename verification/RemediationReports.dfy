/**
 Enforcement when systemctl commands fail: the exact state it leaves, and when its
 report is a true account of what changed.
 */
module RemediationReports {
  import opened Wrappers
  import opened Manifests
  import opened Sequences
  import opened FileChecks
  import opened Systems
  import opened Remediation

  // ---- the state after a pass whose commands may fail ----

  /** What the declarations of a name ask for, in order. */
  function RunningAsks(declared: seq<ManifestService>, n: string): seq<bool> {
    if declared == [] then []
    else (if declared[0].name == n then [declared[0].running] else []) + RunningAsks(declared[1..], n)
  }

  function EnabledAsks(declared: seq<ManifestService>, n: string): seq<bool> {
    if declared == [] then []
    else (if declared[0].name == n then [declared[0].enabled] else []) + EnabledAsks(declared[1..], n)
  }

  /**
   Where a state that was `b` ends up: at the last thing asked for if it can be turned
   both ways, stuck after the first turn if only one way works, and as it was otherwise.
   */
  predicate EndsOn(b: bool, asks: seq<bool>, canOn: bool, canOff: bool) {
    if canOn && canOff then (if asks == [] then b else asks[|asks| - 1])
    else if canOn then b || true in asks
    else if canOff then b && false !in asks
    else b
  }

  predicate Turn(b: bool, ask: bool, canOn: bool, canOff: bool) {
    if ask then b || canOn else b && !canOff
  }

  lemma EndsOnStep(b: bool, ask: bool, rest: seq<bool>, canOn: bool, canOff: bool)
    ensures EndsOn(b, [ask] + rest, canOn, canOff) == EndsOn(Turn(b, ask, canOn, canOff), rest, canOn, canOff)
  {
    var asks := [ask] + rest;
    assert forall x :: x in asks <==> x == ask || x in rest;
    if rest != [] {
      assert asks[|asks| - 1] == rest[|rest| - 1];
    }
  }

  lemma EnforceFaulty(u: Units, f: Faults, d: ManifestService, rep: Report, n: string)
    requires IsResponsive(u) && d.name != ""
    ensures var v := Enforce(u, f, d, rep).0;
            && IsResponsive(v)
            && (n in v.active <==> if n == d.name then Turn(n in u.active, d.running, n !in f.start, n !in f.stop)
                                   else n in u.active)
            && (n in v.enabled <==> if n == d.name then Turn(n in u.enabled, d.enabled, n !in f.enable, n !in f.disable)
                                    else n in u.enabled)
  {
  }

  lemma {:induction false} EnforceAllFaulty(u: Units, f: Faults, declared: seq<ManifestService>, rep: Report, n: string)
    requires IsResponsive(u) && AllNamed(declared)
    ensures var v := EnforceAll(u, f, declared, rep).0;
            && IsResponsive(v)
            && (n in v.active <==> EndsOn(n in u.active, RunningAsks(declared, n), n !in f.start, n !in f.stop))
            && (n in v.enabled <==> EndsOn(n in u.enabled, EnabledAsks(declared, n), n !in f.enable, n !in f.disable))
    decreases |declared|
  {
    if declared != [] {
      var d, tail := declared[0], declared[1..];
      assert d in declared && AllNamed(tail);
      var mid := Enforce(u, f, d, rep);
      EnforceFaulty(u, f, d, rep, n);
      EnforceAllFaulty(mid.0, f, tail, mid.1, n);
      if d.name == n {
        EndsOnStep(n in u.active, d.running, RunningAsks(tail, n), n !in f.start, n !in f.stop);
        EndsOnStep(n in u.enabled, d.enabled, EnabledAsks(tail, n), n !in f.enable, n !in f.disable);
      } else {
        assert [] + RunningAsks(tail, n) == RunningAsks(tail, n) && [] + EnabledAsks(tail, n) == EnabledAsks(tail, n);
      }
    }
  }

  /**
   The exact state of every service after a pass, whichever commands fail: undeclared
   active ones outside a non-empty snapshot are off as far as stopping and disabling
   work, and the declarations then turn each state as far as the commands let them.
   */
  lemma ServicesAfterFaultyPass(u: Units, f: Faults, snapshot: seq<string>, declared: seq<ManifestService>, rep: Report,
                                n: string)
    requires IsResponsive(u) && AllNamed(declared)
    ensures var next := PassServices(u, f, snapshot, declared, rep).0;
            var loose := IsUnauthorized(u, snapshot, n);
            && IsResponsive(next)
            && (n in next.active <==>
                  EndsOn(n in u.active && !(loose && n !in f.stop), RunningAsks(declared, n),
                         n !in f.start, n !in f.stop))
            && (n in next.enabled <==>
                  EndsOn(n in u.enabled && !(loose && n !in f.disable), EnabledAsks(declared, n),
                         n !in f.enable, n !in f.disable))
  {
    var extra := Unlisted(snapshot, ListActive(u));
    StopAllState(u, f, extra, rep);
    OutsideMembers(Elements(snapshot), u.active);
    assert n in extra <==> IsUnauthorized(u, snapshot, n);
    var r := StopAll(u, f, extra, rep);
    EnforceAllFaulty(r.0, f, declared, r.1, n);
  }

  // ---- what an observer of the units sees ----

  function Plus(a: Report, b: Report): Report {
    Report(a.packagesRemoved + b.packagesRemoved, a.started + b.started, a.stopped + b.stopped,
           a.enabled + b.enabled, a.disabled + b.disabled)
  }

  function Only(b: bool, name: string): seq<string> {
    if b then [name] else []
  }

  /** What changed about `name` from one moment to the next. */
  function Observed(u: Units, v: Units, name: string): Report {
    Report([],
           Only(name !in u.active && name in v.active, name), Only(name in u.active && name !in v.active, name),
           Only(name !in u.enabled && name in v.enabled, name), Only(name in u.enabled && name !in v.enabled, name))
  }

  function StopAllSeen(u: Units, f: Faults, names: seq<string>): Report
    decreases |names|
  {
    if names == [] then NOTHING
    else
      var next := Disable(Stop(u, f, names[0]), f, names[0]);
      Plus(Observed(u, next, names[0]), StopAllSeen(next, f, names[1..]))
  }

  function EnforceAllSeen(u: Units, f: Faults, declared: seq<ManifestService>): Report
    requires AllNamed(declared)
    decreases |declared|
  {
    if declared == [] then NOTHING
    else
      assert declared[0] in declared && AllNamed(declared[1..]);
      var next := Enforce(u, f, declared[0], NOTHING).0;
      Plus(Observed(u, next, declared[0].name), EnforceAllSeen(next, f, declared[1..]))
  }

  /** The changes of a pass, service by service. */
  function PassSeen(u: Units, f: Faults, snapshot: seq<string>, declared: seq<ManifestService>): Report
    requires AllNamed(declared)
  {
    var extra := Unlisted(snapshot, ListActive(u));
    Plus(StopAllSeen(u, f, extra), EnforceAllSeen(StopAll(u, f, extra, NOTHING).0, f, declared))
  }

  // ---- reported against seen ----

  lemma PlusNothing(a: Report)
    ensures Plus(a, NOTHING) == a && Plus(NOTHING, a) == a
  {
  }

  lemma PlusAssociates(a: Report, b: Report, c: Report)
    ensures Plus(Plus(a, b), c) == Plus(a, Plus(b, c))
  {
  }

  lemma EnforceAdds(u: Units, f: Faults, d: ManifestService, rep: Report)
    requires d.name != ""
    ensures var r := Enforce(u, f, d, NOTHING); Enforce(u, f, d, rep) == (r.0, Plus(rep, r.1))
  {
    PlusNothing(rep);
    assert [] + [d.name] == [d.name];
  }

  lemma {:induction false} EnforceAllAdds(u: Units, f: Faults, declared: seq<ManifestService>, rep: Report)
    requires AllNamed(declared)
    ensures var r := EnforceAll(u, f, declared, NOTHING); EnforceAll(u, f, declared, rep) == (r.0, Plus(rep, r.1))
    decreases |declared|
  {
    if declared == [] {
      PlusNothing(rep);
    } else {
      var d, tail := declared[0], declared[1..];
      assert d in declared && AllNamed(tail);
      var one := Enforce(u, f, d, NOTHING);
      var rest := EnforceAll(one.0, f, tail, NOTHING).1;
      EnforceAdds(u, f, d, rep);
      EnforceAllAdds(one.0, f, tail, Plus(rep, one.1));
      EnforceAllAdds(one.0, f, tail, one.1);
      PlusAssociates(rep, one.1, rest);
    }
  }

  /** `seen` is `told` without the stops and disables that failed. */
  predicate IsTrueBut(told: Report, seen: Report, f: Faults) {
    && seen.packagesRemoved == told.packagesRemoved && seen.started == told.started && seen.enabled == told.enabled
    && seen.stopped == Outside(f.stop, told.stopped) && seen.disabled == Outside(f.disable, told.disabled)
  }

  lemma EnforceTold(u: Units, f: Faults, d: ManifestService)
    requires IsResponsive(u) && d.name != ""
    ensures var r := Enforce(u, f, d, NOTHING); IsTrueBut(r.1, Observed(u, r.0, d.name), f)
  {
    var r := Enforce(u, f, d, NOTHING);
    EnforceFaulty(u, f, d, NOTHING, d.name);
    assert r.1.stopped == Only(!d.running && d.name in u.active, d.name);
    assert r.1.disabled == Only(!d.enabled && d.name in u.enabled, d.name);
    assert [d.name][1..] == [];
  }

  lemma {:induction false} OutsideAppend(allowed: set<string>, a: seq<string>, b: seq<string>)
    ensures Outside(allowed, a + b) == Outside(allowed, a) + Outside(allowed, b)
  {
    if a == [] {
      assert a + b == b;
    } else {
      assert (a + b)[0] == a[0] && (a + b)[1..] == a[1..] + b;
      OutsideAppend(allowed, a[1..], b);
    }
  }

  lemma {:induction false} OutsideAll(allowed: set<string>, a: seq<string>)
    ensures Outside(allowed, a) == a <==> forall x :: x in a ==> x !in allowed
  {
    OutsideMembers(allowed, a);
    if a != [] && forall x :: x in a ==> x !in allowed {
      OutsideAll(allowed, a[1..]);
      assert a[0] in a && a == [a[0]] + a[1..];
    }
  }

  lemma {:induction false} EnforceAllTold(u: Units, f: Faults, declared: seq<ManifestService>)
    requires IsResponsive(u) && AllNamed(declared)
    ensures IsTrueBut(EnforceAll(u, f, declared, NOTHING).1, EnforceAllSeen(u, f, declared), f)
    decreases |declared|
  {
    if declared != [] {
      var d, tail := declared[0], declared[1..];
      assert d in declared && AllNamed(tail);
      var one := Enforce(u, f, d, NOTHING);
      var rest := EnforceAll(one.0, f, tail, NOTHING).1;
      EnforceFaulty(u, f, d, NOTHING, d.name);
      EnforceTold(u, f, d);
      EnforceAllTold(one.0, f, tail);
      EnforceAllAdds(one.0, f, tail, one.1);
      OutsideAppend(f.stop, one.1.stopped, rest.stopped);
      OutsideAppend(f.disable, one.1.disabled, rest.disabled);
    }
  }

  /** Of the stopped ones an observer sees those whose command worked, and none twice. */
  lemma {:induction false} StopAllSeenIff(u: Units, f: Faults, names: seq<string>)
    requires IsResponsive(u)
    ensures var seen := StopAllSeen(u, f, names);
            && seen.packagesRemoved == seen.started == seen.enabled == []
            && |seen.stopped| <= |names|
            && (forall n :: n in seen.stopped ==> n in u.active && n !in f.stop)
            && (forall n :: n in seen.disabled ==> n !in f.disable)
            && (seen.disabled == [] <==> forall n :: n in names && n in u.enabled ==> n in f.disable)
    decreases |names|
  {
    if names != [] {
      var next := Disable(Stop(u, f, names[0]), f, names[0]);
      StopAllSeenIff(next, f, names[1..]);
      assert forall n :: n in names <==> n == names[0] || n in names[1..];
    }
  }

  lemma {:induction false} AllStopsSeenIff(u: Units, f: Faults, names: seq<string>)
    requires IsResponsive(u) && forall n :: n in names ==> n in u.active
    ensures StopAllSeen(u, f, names).stopped == names <==> NoRepeats(names) && forall n :: n in names ==> n !in f.stop
    decreases |names|
  {
    if names != [] {
      var head, tail := names[0], names[1..];
      var next := Disable(Stop(u, f, head), f, head);
      var rest := StopAllSeen(next, f, tail).stopped;
      assert names == [head] + tail && head in names;
      assert forall n :: n in names <==> n == head || n in tail;
      StopAllSeenIff(next, f, tail);
      StopAllSeenIff(u, f, names);
      if head !in f.stop {
        assert head !in next.active;
        assert StopAllSeen(u, f, names).stopped == [head] + rest;
        NoRepeatsCons(head, tail);
        if head in tail {
          assert rest != tail;
          assert ([head] + rest)[1..] == rest && names[1..] == tail;
        } else {
          AllStopsSeenIff(next, f, tail);
          assert [head] + rest == names <==> rest == tail by {
            assert ([head] + rest)[1..] == rest && names[1..] == tail;
          }
        }
      }
    }
  }

  lemma NoRepeatsCons(head: string, tail: seq<string>)
    ensures NoRepeats([head] + tail) <==> NoRepeats(tail) && head !in tail
  {
    var all := [head] + tail;
    assert forall i :: 0 <= i < |tail| ==> all[i + 1] == tail[i];
    if NoRepeats(all) {
      forall i, j | 0 <= i < j < |tail|
        ensures tail[i] != tail[j]
      {
        assert all[i + 1] != all[j + 1];
      }
      forall i | 0 <= i < |tail|
        ensures tail[i] != head
      {
        assert all[0] != all[i + 1];
      }
    }
  }

  /** The units a pass reports as stopped: the unauthorized ones, then declared ones that should not run. */
  lemma PassTold(u: Units, f: Faults, snapshot: seq<string>, declared: seq<ManifestService>)
    requires IsResponsive(u) && AllNamed(declared)
    ensures var extra := Unlisted(snapshot, ListActive(u));
            var told := EnforceAll(StopAll(u, f, extra, NOTHING).0, f, declared, NOTHING).1;
            && PassServices(u, f, snapshot, declared, NOTHING).1 == told.(stopped := extra + told.stopped)
            && IsTrueBut(told, EnforceAllSeen(StopAll(u, f, extra, NOTHING).0, f, declared), f)
  {
    var extra := Unlisted(snapshot, ListActive(u));
    StopAllState(u, f, extra, NOTHING);
    var r := StopAll(u, f, extra, NOTHING);
    assert [] + extra == extra;
    EnforceAllAdds(r.0, f, declared, r.1);
    EnforceAllTold(r.0, f, declared);
  }

  /**
   When the report of a pass is a true account of what it changed: exactly when no
   stop or disable it reports failed, systemd lists no unit twice, and no unauthorized
   service got disabled, for that is done without being reported.
   */
  lemma ReportIsTrueIff(u: Units, f: Faults, snapshot: seq<string>, declared: seq<ManifestService>)
    requires IsResponsive(u) && AllNamed(declared)
    ensures var extra := Unlisted(snapshot, ListActive(u));
            var told := PassServices(u, f, snapshot, declared, NOTHING).1;
            told == PassSeen(u, f, snapshot, declared) <==>
            && (forall n :: n in told.stopped ==> n !in f.stop)
            && (forall n :: n in told.disabled ==> n !in f.disable)
            && NoRepeats(extra)
            && (forall n :: n in extra && n in u.enabled ==> n in f.disable)
  {
    var extra := Unlisted(snapshot, ListActive(u));
    var rest := EnforceAll(StopAll(u, f, extra, NOTHING).0, f, declared, NOTHING).1;
    OutsideMembers(Elements(snapshot), u.active);
    PassTold(u, f, snapshot, declared);
    StopAllSeenIff(u, f, extra);
    AllStopsSeenIff(u, f, extra);
    TellsIff(extra, rest, StopAllSeen(u, f, extra), EnforceAllSeen(StopAll(u, f, extra, NOTHING).0, f, declared), f);
  }

  /** With working commands the report lacks exactly the disabling of unauthorized services. */
  lemma ReportHidesDisables(u: Units, snapshot: seq<string>, declared: seq<ManifestService>)
    requires IsResponsive(u) && AllNamed(declared) && NoRepeats(u.active)
    ensures PassServices(u, NO_FAULTS, snapshot, declared, NOTHING).1 == PassSeen(u, NO_FAULTS, snapshot, declared) <==>
            forall n :: IsUnauthorized(u, snapshot, n) ==> n !in u.enabled
  {
    var extra := Unlisted(snapshot, ListActive(u));
    ReportIsTrueIff(u, NO_FAULTS, snapshot, declared);
    OutsideMembers(Elements(snapshot), u.active);
    OutsideKeepsDistinct(Elements(snapshot), u.active);
    assert forall n :: n in extra <==> IsUnauthorized(u, snapshot, n);
  }

  lemma {:induction false} OutsideKeepsDistinct(allowed: set<string>, a: seq<string>)
    requires NoRepeats(a)
    ensures NoRepeats(Outside(allowed, a))
  {
    if a != [] {
      assert a == [a[0]] + a[1..];
      NoRepeatsCons(a[0], a[1..]);
      OutsideKeepsDistinct(allowed, a[1..]);
      OutsideMembers(allowed, a[1..]);
      NoRepeatsCons(a[0], Outside(allowed, a[1..]));
    }
  }

  lemma TellsIff(extra: seq<string>, rest: Report, first: Report, later: Report, f: Faults)
    requires first.packagesRemoved == first.started == first.enabled == [] && IsTrueBut(rest, later, f)
    requires |first.stopped| <= |extra| && forall n :: n in first.stopped ==> n !in f.stop
    requires forall n :: n in first.disabled ==> n !in f.disable
    ensures var told := rest.(stopped := extra + rest.stopped);
            told == Plus(first, later) <==>
            && (forall n :: n in told.stopped ==> n !in f.stop)
            && (forall n :: n in told.disabled ==> n !in f.disable)
            && first.stopped == extra && first.disabled == []
  {
    StopsMatchIff(extra, rest.stopped, first.stopped, f.stop);
    DisablesMatchIff(rest.disabled, first.disabled, f.disable);
    var both := Plus(first, later);
    assert both.packagesRemoved == rest.packagesRemoved && both.started == rest.started && both.enabled == rest.enabled;
  }

  lemma StopsMatchIff(extra: seq<string>, rest: seq<string>, seen: seq<string>, failing: set<string>)
    requires |seen| <= |extra| && forall n :: n in seen ==> n !in failing
    ensures extra + rest == seen + Outside(failing, rest) <==>
            (forall n :: n in extra + rest ==> n !in failing) && seen == extra
  {
    OutsideMembers(failing, rest);
    OutsideAll(failing, rest);
    if extra + rest == seen + Outside(failing, rest) {
      assert forall n :: n in seen + Outside(failing, rest) ==> n !in failing;
      assert forall n :: n in rest ==> n in extra + rest;
      assert |seen| == |extra|;
      assert seen == (seen + rest)[..|seen|] && extra == (extra + rest)[..|extra|];
    }
  }

  lemma DisablesMatchIff(rest: seq<string>, seen: seq<string>, failing: set<string>)
    requires forall n :: n in seen ==> n !in failing
    ensures rest == seen + Outside(failing, rest) <==> (forall n :: n in rest ==> n !in failing) && seen == []
  {
    OutsideMembers(failing, rest);
    OutsideAll(failing, rest);
    if rest == seen + Outside(failing, rest) {
      assert forall n :: n in seen + Outside(failing, rest) ==> n !in failing;
      assert |seen| == 0;
    }
    if seen == [] {
      assert seen + rest == rest;
    }
  }
}
