/**
 Generating a manifest from the live system, the command-line inputs that feed it,
 and what holds for every manifest that generation and recording can produce.
 */
module Generation {
  import opened Wrappers
  import opened Text
  import opened Templates
  import opened Manifests
  import opened Sequences
  import opened Orders
  import opened FileChecks
  import opened Systems
  import Encoding
  import Playbooks
  import S = Scan
  import ScanTheorems
  import FileIndexes
  import ManifestWriter
  import Records

  // ---- command-line inputs ----

  function SplitCSV(s: string): seq<string> {
    Trimmed(Split(s, ','))
  }

  function Trimmed(parts: seq<string>): seq<string> {
    if parts == [] then []
    else (if TrimSpace(parts[0]) == "" then [] else [TrimSpace(parts[0])]) + Trimmed(parts[1..])
  }

  /** What the list holds: the trimmed non-empty pieces, none with a comma inside. */
  lemma {:induction false} TrimmedMembers(parts: seq<string>)
    ensures forall x :: x in Trimmed(parts) <==> x != "" && exists p :: p in parts && TrimSpace(p) == x
  {
    if parts != [] {
      var rest := Trimmed(parts[1..]);
      TrimmedMembers(parts[1..]);
      assert forall p :: p in parts <==> p == parts[0] || p in parts[1..];
      assert forall x :: x in Trimmed(parts) <==> x in rest || (x == TrimSpace(parts[0]) && x != "");
    }
  }

  lemma SplitCSVMembers(s: string)
    ensures forall x :: x in SplitCSV(s) ==> x != "" && ',' !in x && !IsSpace(x[0]) && !IsSpace(x[|x| - 1])
    ensures SplitCSV(s) == [] <==> forall p :: p in Split(s, ',') ==> TrimSpace(p) == ""
  {
    TrimmedMembers(Split(s, ','));
    var out := SplitCSV(s);
    assert out != [] ==> out[0] in out;
  }

  method SplitList(s: string) returns (out: seq<string>)
    ensures out == SplitCSV(s)
  {
    out := [];
    var parts := Split(s, ',');
    for i := 0 to |parts|
      invariant out + Trimmed(parts[i..]) == Trimmed(parts)
    {
      assert parts[i..][1..] == parts[i + 1..];
      var trimmed := TrimSpace(parts[i]);
      if trimmed != "" {
        out := out + [trimmed];
      }
    }
  }

  datatype PackageSpec = PackageSpec(name: string, version: string)
  datatype SpecError = BadSpec(text: string)

  function IndexOfChar(s: string, c: char): (r: Option<nat>)
    ensures r.Some? ==> r.value < |s| && s[r.value] == c && c !in s[..r.value]
    ensures r.None? ==> c !in s
  {
    if s == "" then None
    else if s[0] == c then Some(0)
    else
      assert s == [s[0]] + s[1..];
      match IndexOfChar(s[1..], c)
      case None => None
      case Some(k) =>
        assert s[..k + 1] == [s[0]] + s[1..][..k];
        Some(k + 1)
  }

  function ParsePackageSpec(s: string): Result<PackageSpec, SpecError>
    requires s != ""
  {
    match IndexOfChar(s, '=')
    case None => Ok(PackageSpec(s, ""))
    case Some(k) =>
      if s[..k] == "" || s[k + 1..] == "" then Err(BadSpec(s)) else Ok(PackageSpec(s[..k], s[k + 1..]))
  }

  function RenderSpec(p: PackageSpec): string {
    if p.version == "" then p.name else p.name + "=" + p.version
  }

  lemma {:induction false} IndexOfCharFound(name: string, rest: string, c: char)
    requires c !in name
    ensures IndexOfChar(name + [c] + rest, c) == Some(|name|)
  {
    if name == "" {
      assert (name + [c] + rest)[0] == c;
    } else {
      assert name[0] in name;
      IndexOfCharFound(name[1..], rest, c);
      assert (name + [c] + rest)[1..] == name[1..] + [c] + rest;
    }
  }

  /** Parsing accepts exactly the renderings of a named package, and inverts them. */
  lemma ParseSpecIff(s: string, p: PackageSpec)
    requires s != ""
    ensures ParsePackageSpec(s) == Ok(p) <==> p.name != "" && '=' !in p.name && RenderSpec(p) == s
  {
    if p.name != "" && '=' !in p.name && RenderSpec(p) == s && p.version != "" {
      IndexOfCharFound(p.name, p.version, '=');
      assert s[..|p.name|] == p.name && s[|p.name| + 1..] == p.version;
    }
    match IndexOfChar(s, '=') {
      case None =>
      case Some(k) =>
        assert s == s[..k] + "=" + s[k + 1..];
        assert '=' in s by {
          assert s[k] in s;
        }
    }
  }

  // ---- collecting live state ----

  datatype Notice =
    | FileNotFound(path: string)
    | FileUnreadable(path: string)
    | NotInstalled(name: string)
    | NotActive(name: string)
    | NotEnabled(name: string)

  predicate IsStatRegular(fs: FileSystem, p: string) {
    p in fs && fs[p].target.File? && fs[p].target.regular
  }

  function FileEntry(fs: FileSystem, p: string): seq<ManifestFile> {
    if IsStatRegular(fs, p) && fs[p].target.readable then [ToManifestFile(p, fs[p].target.attrs)] else []
  }

  function FileNotice(fs: FileSystem, p: string): seq<Notice> {
    if !IsStatRegular(fs, p) then [FileNotFound(p)]
    else if !fs[p].target.readable then [FileUnreadable(p)]
    else []
  }

  function CollectedFiles(fs: FileSystem, paths: seq<string>): seq<ManifestFile> {
    if paths == [] then [] else FileEntry(fs, paths[0]) + CollectedFiles(fs, paths[1..])
  }

  function FileNotices(fs: FileSystem, paths: seq<string>): seq<Notice> {
    if paths == [] then [] else FileNotice(fs, paths[0]) + FileNotices(fs, paths[1..])
  }

  function PackageEntry(packages: seq<Package>, p: PackageSpec): ManifestPackage {
    ManifestPackage(p.name,
                    if p.version != "" then p.version
                    else match LookupVersion(packages, p.name) case Some(v) => v case None => "")
  }

  function PackageNotice(packages: seq<Package>, p: PackageSpec): seq<Notice> {
    if LookupVersion(packages, p.name).None? then [NotInstalled(p.name)] else []
  }

  function CollectedPackages(packages: seq<Package>, specs: seq<PackageSpec>): seq<ManifestPackage> {
    if specs == [] then [] else [PackageEntry(packages, specs[0])] + CollectedPackages(packages, specs[1..])
  }

  function PackageNotices(packages: seq<Package>, specs: seq<PackageSpec>): seq<Notice> {
    if specs == [] then [] else PackageNotice(packages, specs[0]) + PackageNotices(packages, specs[1..])
  }

  function ServiceEntry(u: Units, name: string): ManifestService {
    ManifestService(name, Confirms(u, IsActive, name), Confirms(u, IsEnabled, name))
  }

  function ServiceNotice(s: ManifestService): seq<Notice> {
    (if s.running then [] else [NotActive(s.name)]) + (if s.enabled then [] else [NotEnabled(s.name)])
  }

  function CollectedServices(u: Units, names: seq<string>): seq<ManifestService> {
    if names == [] then [] else [ServiceEntry(u, names[0])] + CollectedServices(u, names[1..])
  }

  function ServiceNotices(u: Units, names: seq<string>): seq<Notice> {
    if names == [] then [] else ServiceNotice(ServiceEntry(u, names[0])) + ServiceNotices(u, names[1..])
  }

  function Snapshot(listing: Option<seq<string>>): Slice<string> {
    match listing
    case None => Nil
    case Some(l) => Grown(SortStrings(l))
  }

  function Generated(s: System, files: seq<string>, specs: seq<PackageSpec>, services: seq<string>,
                     snapshot: bool, now: int)
    : Manifest
  {
    Manifest(1, now,
             Grown(CollectedFiles(s.fs, files)),
             Grown(CollectedPackages(s.packages, specs)),
             Grown(CollectedServices(s.units, services)),
             if snapshot then Snapshot(ListPackages(s)) else Nil,
             if snapshot then Snapshot(ListActive(s.units)) else Nil)
  }

  method CollectFiles(fs: FileSystem, paths: seq<string>) returns (entries: seq<ManifestFile>, notices: seq<Notice>)
    ensures entries == CollectedFiles(fs, paths)
    ensures notices == FileNotices(fs, paths)
  {
    entries, notices := [], [];
    for i := 0 to |paths|
      invariant entries + CollectedFiles(fs, paths[i..]) == CollectedFiles(fs, paths)
      invariant notices + FileNotices(fs, paths[i..]) == FileNotices(fs, paths)
    {
      assert paths[i..][0] == paths[i] && paths[i..][1..] == paths[i + 1..];
      Shift(entries, FileEntry(fs, paths[i]), CollectedFiles(fs, paths[i + 1..]));
      Shift(notices, FileNotice(fs, paths[i]), FileNotices(fs, paths[i + 1..]));
      if !IsStatRegular(fs, paths[i]) {
        notices := notices + [FileNotFound(paths[i])];
      } else if !fs[paths[i]].target.readable {
        notices := notices + [FileUnreadable(paths[i])];
      } else {
        entries := entries + [ToManifestFile(paths[i], fs[paths[i]].target.attrs)];
      }
    }
    assert entries + [] == entries && notices + [] == notices;
  }

  /** Each unusable path is named with its reason, and nothing else is. */
  lemma {:induction false} FileNoticesMembers(fs: FileSystem, paths: seq<string>, n: Notice)
    ensures n in FileNotices(fs, paths) <==>
            || (n.FileNotFound? && n.path in paths && !IsStatRegular(fs, n.path))
            || (n.FileUnreadable? && n.path in paths && IsStatRegular(fs, n.path) && !fs[n.path].target.readable)
  {
    if paths != [] {
      FileNoticesMembers(fs, paths[1..], n);
      assert forall p :: p in paths <==> p == paths[0] || p in paths[1..];
    }
  }

  lemma {:induction false} PackageNoticesMembers(packages: seq<Package>, specs: seq<PackageSpec>, n: Notice)
    ensures n in PackageNotices(packages, specs) <==>
            && n.NotInstalled? && LookupVersion(packages, n.name).None?
            && exists p :: p in specs && p.name == n.name
  {
    if specs != [] {
      PackageNoticesMembers(packages, specs[1..], n);
      assert forall p :: p in specs <==> p == specs[0] || p in specs[1..];
    }
  }

  lemma {:induction false} ServiceNoticesMembers(u: Units, names: seq<string>, n: Notice)
    ensures n in ServiceNotices(u, names) <==>
            || (n.NotActive? && n.name in names && !Confirms(u, IsActive, n.name))
            || (n.NotEnabled? && n.name in names && !Confirms(u, IsEnabled, n.name))
  {
    if names != [] {
      ServiceNoticesMembers(u, names[1..], n);
      assert forall s :: s in names <==> s == names[0] || s in names[1..];
    }
  }

  /** The entry of a spec: a pinned version is kept, else it is the one installed, if any. */
  predicate IsEntryFor(e: ManifestPackage, p: PackageSpec, installed: Option<Name>) {
    && e.name == p.name
    && (p.version != "" ==> e.version == p.version)
    && (p.version == "" && installed.Some? ==> e.version == installed.value)
    && (p.version == "" && installed.None? ==> e.version == "")
  }

  lemma {:induction false} EntryOfSpec(packages: seq<Package>, specs: seq<PackageSpec>, i: nat)
    requires i < |specs|
    ensures |CollectedPackages(packages, specs)| == |specs|
    ensures IsEntryFor(CollectedPackages(packages, specs)[i], specs[i], LookupVersion(packages, specs[i].name))
    decreases |specs|
  {
    if i > 0 {
      EntryOfSpec(packages, specs[1..], i - 1);
    } else if |specs| > 1 {
      EntryOfSpec(packages, specs[1..], 0);
    }
  }

  method CollectPackages(packages: seq<Package>, specs: seq<PackageSpec>)
    returns (entries: seq<ManifestPackage>, notices: seq<Notice>)
    ensures entries == CollectedPackages(packages, specs)
    ensures notices == PackageNotices(packages, specs)
    ensures |entries| == |specs|
    ensures forall i :: 0 <= i < |specs| ==> IsEntryFor(entries[i], specs[i], LookupVersion(packages, specs[i].name))
  {
    forall i | 0 <= i < |specs|
      ensures |CollectedPackages(packages, specs)| == |specs|
      ensures IsEntryFor(CollectedPackages(packages, specs)[i], specs[i], LookupVersion(packages, specs[i].name))
    {
      EntryOfSpec(packages, specs, i);
    }
    entries, notices := [], [];
    for i := 0 to |specs|
      invariant entries + CollectedPackages(packages, specs[i..]) == CollectedPackages(packages, specs)
      invariant notices + PackageNotices(packages, specs[i..]) == PackageNotices(packages, specs)
    {
      assert specs[i..][0] == specs[i] && specs[i..][1..] == specs[i + 1..];
      Shift(entries, [PackageEntry(packages, specs[i])], CollectedPackages(packages, specs[i + 1..]));
      Shift(notices, PackageNotice(packages, specs[i]), PackageNotices(packages, specs[i + 1..]));
      if LookupVersion(packages, specs[i].name).None? {
        notices := notices + [NotInstalled(specs[i].name)];
      }
      entries := entries + [PackageEntry(packages, specs[i])];
    }
    assert entries + [] == entries && notices + [] == notices;
  }

  method CollectServices(u: Units, names: seq<string>) returns (entries: seq<ManifestService>, notices: seq<Notice>)
    ensures entries == CollectedServices(u, names)
    ensures notices == ServiceNotices(u, names)
  {
    entries, notices := [], [];
    for i := 0 to |names|
      invariant entries + CollectedServices(u, names[i..]) == CollectedServices(u, names)
      invariant notices + ServiceNotices(u, names[i..]) == ServiceNotices(u, names)
    {
      assert names[i..][0] == names[i] && names[i..][1..] == names[i + 1..];
      var entry := ServiceEntry(u, names[i]);
      Shift(entries, [entry], CollectedServices(u, names[i + 1..]));
      Shift(notices, ServiceNotice(entry), ServiceNotices(u, names[i + 1..]));
      entries := entries + [entry];
      ghost var before := notices;
      if !entry.running {
        notices := notices + [NotActive(names[i])];
      }
      if !entry.enabled {
        notices := notices + [NotEnabled(names[i])];
      }
      assert notices == before + ServiceNotice(entry);
    }
    assert entries + [] == entries && notices + [] == notices;
  }

  /** The destination file, by the JSON it holds. */
  class Generator {
    var dest: Option<Encoding.Json>

    constructor (dest: Option<Encoding.Json>)
      ensures this.dest == dest
    {
      this.dest := dest;
    }

    /**
     Writes the generated manifest; `changed` compares it with what was loadable
     before. `end` is how the write ends: a failure before the rename leaves the old
     content, one after it the new.
     */
    method GenerateManifest(s: System, files: seq<string>, specs: seq<PackageSpec>, services: seq<string>,
                            snapshot: bool, now: int, end: ManifestWriter.Phase)
      returns (notices: seq<Notice>, changed: bool, error: Option<ManifestWriter.WriteError>)
      requires ManifestWriter.IsEnd(end)
      modifies this
      ensures dest == if ManifestWriter.Installed(end)
                      then Some(Encoding.Encode(Generated(s, files, specs, services, snapshot, now)))
                      else old(dest)
      ensures error == if end.Failed? then Some(end.error) else None
      ensures notices == FileNotices(s.fs, files) + PackageNotices(s.packages, specs)
              + ServiceNotices(s.units, services)
      ensures changed <==>
              match old(dest)
              case None => true
              case Some(j) =>
                || Encoding.Load(j).None?
                || !Encoding.ManifestsEqual(Encoding.Load(j).value,
                                            Generated(s, files, specs, services, snapshot, now))
    {
      var foundFiles, a := CollectFiles(s.fs, files);
      var foundPackages, b := CollectPackages(s.packages, specs);
      var foundServices, c := CollectServices(s.units, services);
      notices := a + b + c;
      var m := Manifest(1, now, Grown(foundFiles), Grown(foundPackages), Grown(foundServices), Nil, Nil);
      if snapshot {
        m := m.(packageSnapshot := Snapshot(ListPackages(s)), serviceSnapshot := Snapshot(ListActive(s.units)));
      }
      var existing := LoadedFrom(dest);
      changed := existing.None? || !Encoding.ManifestsEqual(existing.value, m);
      if ManifestWriter.Installed(end) {
        dest := Some(Encoding.Encode(m));
      }
      error := ManifestWriter.ErrorOf(end);
    }
  }

  function LoadedFrom(dest: Option<Encoding.Json>): Option<Manifest> {
    match dest
    case None => None
    case Some(j) => Encoding.Load(j)
  }

  /**
   Generating again from the same system reports no change, at any later time and
   however the second write ends, once a first one was installed.
   */
  method RegenerateUnchanged(g: Generator, s: System, files: seq<string>, specs: seq<PackageSpec>,
                             services: seq<string>, snapshot: bool, now: int, later: int,
                             end: ManifestWriter.Phase, endLater: ManifestWriter.Phase)
    returns (changed: bool)
    requires ManifestWriter.IsEnd(end) && ManifestWriter.IsEnd(endLater) && ManifestWriter.Installed(end)
    modifies g
    ensures !changed
  {
    var m := Generated(s, files, specs, services, snapshot, now);
    var _, first, _ := g.GenerateManifest(s, files, specs, services, snapshot, now, end);
    Encoding.SavedComparesEqual(m, later);
    assert m.(generatedAt := later) == Generated(s, files, specs, services, snapshot, later);
    var _, second, _ := g.GenerateManifest(s, files, specs, services, snapshot, later, endLater);
    changed := second;
  }

  // ---- a fresh manifest against the system it came from ----

  lemma {:induction false} CollectedFilesClean(fs: FileSystem, paths: seq<string>, checks: seq<string>, fast: bool)
    requires "" !in paths
    ensures AllCheckable(CollectedFiles(fs, paths))
    ensures CheckInOrder(fs, CollectedFiles(fs, paths), checks, fast) == []
  {
    if paths != [] {
      var rest := CollectedFiles(fs, paths[1..]);
      CollectedFilesClean(fs, paths[1..], checks, fast);
      var entry := FileEntry(fs, paths[0]);
      assert paths[0] in paths;
      if entry == [] {
        assert CollectedFiles(fs, paths) == rest;
      } else {
        assert (entry + rest)[0] == entry[0] && (entry + rest)[1..] == rest;
        assert CheckFile(fs, entry[0], checks, fast) == None;
      }
    }
  }

  lemma {:induction false} CollectedServicesClean(u: Units, names: seq<string>)
    ensures ServiceDeviations(u, CollectedServices(u, names)) == []
  {
    if names != [] {
      var rest := CollectedServices(u, names[1..]);
      CollectedServicesClean(u, names[1..]);
      assert ([ServiceEntry(u, names[0])] + rest)[1..] == rest;
      assert CheckService(u, ServiceEntry(u, names[0])) == [];
    }
  }

  /** What is wrong with a declared package at generation: absent, or pinned to another version. */
  function SpecDeviation(packages: seq<Package>, p: PackageSpec): seq<Deviation> {
    match LookupVersion(packages, p.name)
    case None => [MissingPackage(p.name)]
    case Some(have) => if p.version != "" && p.version != have then [VersionMismatch(p.name, have, p.version)] else []
  }

  function SpecDeviations(packages: seq<Package>, specs: seq<PackageSpec>): seq<Deviation> {
    if specs == [] then [] else SpecDeviation(packages, specs[0]) + SpecDeviations(packages, specs[1..])
  }

  lemma {:induction false} CollectedPackagesDeviate(packages: seq<Package>, specs: seq<PackageSpec>)
    ensures PackageDeviations(packages, CollectedPackages(packages, specs)) == SpecDeviations(packages, specs)
  {
    if specs != [] {
      var rest := CollectedPackages(packages, specs[1..]);
      CollectedPackagesDeviate(packages, specs[1..]);
      assert ([PackageEntry(packages, specs[0])] + rest)[1..] == rest;
    }
  }

  /** A snapshot does not depend on the order in which the system lists what is there. */
  lemma SnapshotIgnoresOrder(a: seq<string>, b: seq<string>)
    requires multiset(a) == multiset(b)
    ensures Snapshot(Some(a)) == Snapshot(Some(b))
  {
    SortSorts(a, Self);
    SortSorts(b, Self);
    SortedUnique(SortStrings(a), SortStrings(b));
  }

  lemma SnapshotAuthorizes(listing: Option<seq<string>>)
    ensures Unlisted(Snapshot(listing).Items(), listing) == []
  {
    UnlistedEmptyIff(Snapshot(listing).Items(), listing);
    if listing.Some? {
      var l, r := listing.value, SortStrings(listing.value);
      assert forall x :: x in l ==> x in multiset(l);
      assert forall x :: x in multiset(r) ==> x in r;
    }
  }

  ghost predicate AreNamed(specs: seq<PackageSpec>) {
    forall p :: p in specs ==> p.name != ""
  }

  lemma {:induction false} CollectedNamed(s: System, specs: seq<PackageSpec>, services: seq<string>)
    requires AreNamed(specs) && "" !in services
    ensures forall p :: p in CollectedPackages(s.packages, specs) ==> p.name != ""
    ensures forall d :: d in CollectedServices(s.units, services) ==> d.name != ""
    decreases |specs| + |services|
  {
    if specs != [] {
      assert specs[0] in specs && AreNamed(specs[1..]);
      CollectedNamed(s, specs[1..], services);
    } else if services != [] {
      assert services[0] in services;
      CollectedNamed(s, specs, services[1..]);
    }
  }

  /**
   What was just generated, saved and loaded checks clean on the unchanged system
   for any check set and both modes, except for the declared packages that were
   absent or pinned to another version: those are reported, and nothing else.
   */
  lemma FreshManifestChecksClean(s: System, files: seq<string>, specs: seq<PackageSpec>, services: seq<string>,
                                 snapshot: bool, now: int, checks: seq<string>, fast: bool)
    requires "" !in files && AreNamed(specs) && "" !in services
    ensures var loaded := Encoding.Load(Encoding.Encode(Generated(s, files, specs, services, snapshot, now)));
            && loaded.Some? && IsWellFormed(loaded.value)
            && Deviations(s, loaded.value, checks, fast) == SpecDeviations(s.packages, specs)
  {
    var g := Generated(s, files, specs, services, snapshot, now);
    Encoding.SaveLoad(g);
    GeneratedIsWellFormed(s, files, specs, services, snapshot, now);
    GeneratedDeviations(s, files, specs, services, snapshot, now, checks, fast);
    var m := Encoding.Normal(g);
    assert m.packageSnapshot.Items() == g.packageSnapshot.Items()
           && m.serviceSnapshot.Items() == g.serviceSnapshot.Items();
  }

  lemma GeneratedIsWellFormed(s: System, files: seq<string>, specs: seq<PackageSpec>, services: seq<string>,
                              snapshot: bool, now: int)
    requires "" !in files && AreNamed(specs) && "" !in services
    ensures IsWellFormed(Generated(s, files, specs, services, snapshot, now))
  {
    CollectedFilesClean(s.fs, files, [], false);
    CollectedNamed(s, specs, services);
  }

  lemma GeneratedDeviations(s: System, files: seq<string>, specs: seq<PackageSpec>, services: seq<string>,
                            snapshot: bool, now: int, checks: seq<string>, fast: bool)
    requires IsWellFormed(Generated(s, files, specs, services, snapshot, now)) && "" !in files
    ensures Deviations(s, Generated(s, files, specs, services, snapshot, now), checks, fast)
            == SpecDeviations(s.packages, specs)
  {
    CollectedFilesClean(s.fs, files, checks, fast);
    CollectedServicesClean(s.units, services);
    CollectedPackagesDeviate(s.packages, specs);
    SnapshotAuthorizes(ListPackages(s));
    SnapshotAuthorizes(ListActive(s.units));
    OnlyPackagesDeviate(s, Generated(s, files, specs, services, snapshot, now), checks, fast);
  }

  lemma OnlyPackagesDeviate(s: System, m: Manifest, checks: seq<string>, fast: bool)
    requires IsWellFormed(m) && CheckInOrder(s.fs, m.files.Items(), checks, fast) == []
    requires ServiceDeviations(s.units, m.services.Items()) == []
    requires Unlisted(m.packageSnapshot.Items(), ListPackages(s)) == []
    requires Unlisted(m.serviceSnapshot.Items(), ListActive(s.units)) == []
    ensures Deviations(s, m, checks, fast) == PackageDeviations(s.packages, m.packages.Items())
  {
    assert FileDeviations(s.fs, m.files.Items(), checks, fast) == [];
    assert UnauthorizedPackages(s, m.packageSnapshot.Items()) == [];
    assert UnauthorizedServices(s.units, m.serviceSnapshot.Items()) == [];
  }

  // ---- every manifest that can come about ----

  /** A generation from the command line, or a record cycle over some roots. */
  datatype Op =
    | Generate(s: System, files: string, scanned: Option<seq<string>>, specs: seq<PackageSpec>, services: string,
               snapshot: bool)
    | Record(before: FileSystem, after: FileSystem, roots: seq<string>, packages: Slice<string>, active: Slice<string>)

  /** The declared files, merged with those of the scanned playbooks when some are given. */
  function FileList(files: string, scanned: Option<seq<string>>): (r: seq<string>)
    ensures forall p :: p in r <==> p in SplitCSV(files) || (scanned.Some? && p in scanned.value)
    ensures scanned.Some? ==> NoRepeats(r)
  {
    match scanned
    case None => SplitCSV(files)
    case Some(more) => FirstOccurrences(SplitCSV(files) + more)
  }

  /** The files of some successful playbook scan, in any order. */
  ghost predicate IsScanned(files: seq<string>) {
    exists h: Playbooks.Host, roots: seq<string> ::
      S.ScanRoots(h, roots, S.START).Ok? && Elements(files) == S.ScanRoots(h, roots, S.START).value.files
  }

  lemma ScannedNonEmpty(files: seq<string>)
    requires IsScanned(files)
    ensures "" !in files
  {
    var h, roots :| S.ScanRoots(h, roots, S.START).Ok? && Elements(files) == S.ScanRoots(h, roots, S.START).value.files;
    ScanTheorems.ScannedFilesPlain(h, roots);
    assert "" in files ==> "" in Elements(files);
  }

  /** The inputs of an op as the command line lets them through. */
  ghost predicate IsInput(op: Op) {
    match op
    case Generate(_, _, scanned, specs, _, _) =>
      && (scanned.Some? ==> IsScanned(scanned.value))
      && forall p :: p in specs ==> exists text :: text != "" && ParsePackageSpec(text) == Ok(p)
    case Record(_, _, _, _, _) => true
  }

  ghost predicate Produces(op: Op, was: Option<Manifest>, m: Manifest) {
    match op
    case Generate(s, files, scanned, specs, services, snapshot) =>
      exists now :: m == Generated(s, FileList(files, scanned), specs, SplitCSV(services), snapshot, now)
    case Record(before, after, roots, packages, active) =>
      var base := if was.Some? then was.value else Records.FRESH;
      && Records.Lists(m.files.Items(),
                       Records.Merge(Records.ByPath(base.files.Items()), FileIndexes.IndexOf(before, roots),
                                     FileIndexes.IndexOf(after, roots)))
      && exists now :: m == Records.Refreshed(base, m.files.Items(), packages, active, now)
  }

  lemma GeneratedWellFormed(op: Op, was: Option<Manifest>, m: Manifest)
    requires op.Generate? && IsInput(op) && Produces(op, was, m)
    ensures IsWellFormed(m)
  {
    var files := FileList(op.files, op.scanned);
    var services := SplitCSV(op.services);
    SplitCSVMembers(op.files);
    SplitCSVMembers(op.services);
    if op.scanned.Some? {
      ScannedNonEmpty(op.scanned.value);
    }
    forall p | p in op.specs
      ensures p.name != ""
    {
      var text :| text != "" && ParsePackageSpec(text) == Ok(p);
      ParseSpecIff(text, p);
    }
    var now :| m == Generated(op.s, files, op.specs, services, op.snapshot, now);
    GeneratedIsWellFormed(op.s, files, op.specs, services, op.snapshot, now);
  }

  lemma RecordedWellFormed(op: Op, was: Option<Manifest>, m: Manifest)
    requires op.Record? && Produces(op, was, m) && (was.Some? ==> IsWellFormed(was.value))
    ensures IsWellFormed(m)
  {
    var base := if was.Some? then was.value else Records.FRESH;
    var pre, post := FileIndexes.IndexOf(op.before, op.roots), FileIndexes.IndexOf(op.after, op.roots);
    var tracked := Records.ByPath(base.files.Items());
    var now :| m == Records.Refreshed(base, m.files.Items(), op.packages, op.active, now);
    assert Records.Refreshed(base, m.files.Items(), op.packages, op.active, now).packages == base.packages;
    assert IsWellFormed(base);
    assert m.packages == base.packages && m.services == base.services;
    FileIndexes.IndexedPathsNonEmpty(op.after, op.roots);
    forall f | f in m.files.Items()
      ensures IsCheckable(f)
    {
      assert f in Elements(m.files.Items());
      var p :| p in Records.Merge(tracked, pre, post) && Records.Merge(tracked, pre, post)[p] == f;
      Records.MergeAt(tracked, pre, post, p);
    }
  }

  /** The manifest that was there before the k-th op: none at first. */
  function Before(ms: seq<Manifest>, k: nat): Option<Manifest> {
    if 0 < k <= |ms| then Some(ms[k - 1]) else None
  }

  ghost predicate IsStep(op: Op, was: Option<Manifest>, m: Manifest) {
    IsInput(op) && Produces(op, was, m)
  }

  lemma StepWellFormed(op: Op, was: Option<Manifest>, m: Manifest)
    requires IsStep(op, was, m) && (was.Some? ==> IsWellFormed(was.value))
    ensures IsWellFormed(m)
  {
    if op.Generate? {
      GeneratedWellFormed(op, was, m);
    } else {
      RecordedWellFormed(op, was, m);
    }
  }

  /**
   Every manifest reachable from none by generations and record cycles, in any mix,
   keeps non-empty paths, hashes and names, so no check of it trips an assertion, and
   the schema by which it can be loaded again.
   */
  lemma {:induction false} ReachableWellFormed(ops: seq<Op>, ms: seq<Manifest>, k: nat)
    requires |ops| == |ms| && k < |ms|
    requires forall i :: 0 <= i < |ops| ==> IsStep(ops[i], Before(ms, i), ms[i])
    ensures IsWellFormed(ms[k]) && Encoding.Load(Encoding.Encode(ms[k])).Some?
  {
    if k > 0 {
      ReachableWellFormed(ops, ms, k - 1);
      Encoding.SaveLoad(ms[k - 1]);
    }
    StepWellFormed(ops[k], Before(ms, k), ms[k]);
    StepKeepsSchema(ops[k], Before(ms, k), ms[k]);
    Encoding.SaveLoad(ms[k]);
  }

  lemma StepKeepsSchema(op: Op, was: Option<Manifest>, m: Manifest)
    requires IsStep(op, was, m) && (was.Some? ==> was.value.schemaVersion == 1)
    ensures m.schemaVersion == 1
  {
    match op
    case Generate(s, files, scanned, specs, services, snapshot) =>
      var now :| m == Generated(s, FileList(files, scanned), specs, SplitCSV(services), snapshot, now);
    case Record(_, _, _, packages, active) =>
      var base := if was.Some? then was.value else Records.FRESH;
      var now :| m == Records.Refreshed(base, m.files.Items(), packages, active, now);
      assert Records.Refreshed(base, m.files.Items(), packages, active, now).schemaVersion == base.schemaVersion;
  }

  /** Files recorded from the system as it is now check clean on it. */
  lemma RecordedEntryChecksClean(fs: FileSystem, roots: seq<string>, p: string, checks: seq<string>, fast: bool)
    requires p in FileIndexes.IndexOf(fs, roots)
    ensures var f := ToManifestFile(p, FileIndexes.IndexOf(fs, roots)[p]);
            IsCheckable(f) && CheckFile(fs, f, checks, fast) == None
  {
    FileIndexes.IndexedPathsNonEmpty(fs, roots);
  }
}
