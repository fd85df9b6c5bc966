/**
 Recording what a provisioning run changed: the delta between the index before and
 the index after it, merged into the manifest's tracked files.
 */
module Records {
  import opened Wrappers
  import opened Manifests
  import opened Sequences
  import opened Orders
  import FileIndexes
  import ManifestWriter
  import Pool
  import Systems

  // ---- the delta ----

  function Diff(before: FileIndex, after: FileIndex): set<string> {
    (set p | p in after && (p !in before || before[p] != after[p])) + (set p | p in before && p !in after)
  }

  /** `base` with the paths of `delta` set to what they are in `after`. */
  function Patch(base: FileIndex, delta: set<string>, after: FileIndex): FileIndex {
    map p | p in base.Keys + after.Keys && (if p in delta then p in after else p in base)
      :: if p in delta then after[p] else base[p]
  }

  lemma DiffMembers(before: FileIndex, after: FileIndex)
    ensures forall p :: p in Diff(before, after) <==> At(before, p) != At(after, p)
  {
  }

  /** The delta rebuilds the later index from the earlier one, and no smaller set of paths does. */
  lemma DiffIsLeastPatch(before: FileIndex, after: FileIndex, delta: set<string>)
    ensures Patch(before, delta, after) == after <==> Diff(before, after) <= delta
    ensures Diff(before, after) == {} <==> before == after
  {
    var patched := Patch(before, delta, after);
    forall p
      ensures At(patched, p) == if p in delta then At(after, p) else At(before, p)
    {
    }
    if Diff(before, after) <= delta {
      assert forall p :: At(patched, p) == At(after, p);
      assert patched.Keys == after.Keys by {
        assert forall p :: p in patched <==> At(patched, p).Some?;
        assert forall p :: p in after <==> At(after, p).Some?;
      }
    }
    if patched == after {
      forall p | p in Diff(before, after)
        ensures p in delta
      {
        assert At(patched, p) == At(after, p);
      }
    }
    if Diff(before, after) == {} {
      DiffMembers(before, after);
      assert forall p :: p !in Diff(before, after);
      assert forall p :: At(before, p) == At(after, p);
      assert forall p :: p in before <==> At(before, p).Some?;
      assert forall p :: p in after <==> At(after, p).Some?;
      assert before.Keys == after.Keys;
    }
  }

  /**
   The sorted delta. The two mappings are walked in any order, and since only one
   strictly increasing listing of a set exists the result does not depend on it.
   */
  method DiffIndexes(before: FileIndex, after: FileIndex) returns (out: seq<string>)
    ensures Elements(out) == Diff(before, after)
    ensures StrictlySortedBy(out, Self)
  {
    out := [];
    var keys := after.Keys;
    while keys != {}
      invariant keys <= after.Keys && NoRepeats(out)
      invariant Elements(out) == set p | p in after.Keys - keys && (p !in before || before[p] != after[p])
    {
      var p :| p in keys;
      assert after.Keys - (keys - {p}) == (after.Keys - keys) + {p};
      if p !in before || before[p] != after[p] {
        assert p !in Elements(out);
        ElementsAppend(out, [p]);
        out := out + [p];
      }
      keys := keys - {p};
    }
    assert after.Keys - keys == after.Keys;
    ghost var changed := Elements(out);
    keys := before.Keys;
    while keys != {}
      invariant keys <= before.Keys && NoRepeats(out)
      invariant Elements(out) == changed + set p | p in before.Keys - keys && p !in after
    {
      var p :| p in keys;
      assert before.Keys - (keys - {p}) == (before.Keys - keys) + {p};
      if p !in after {
        assert p !in Elements(out);
        ElementsAppend(out, [p]);
        out := out + [p];
      }
      keys := keys - {p};
    }
    assert before.Keys - keys == before.Keys;
    ghost var unsorted := out;
    out := SortStrings(out);
    SortSorts(unsorted, Self);
    SortKeepsDistinct(unsorted, out);
    SortedIsStrict(out, Self);
  }

  lemma SortKeepsDistinct<T>(s: seq<T>, r: seq<T>)
    requires multiset(s) == multiset(r) && NoRepeats(s)
    ensures Elements(r) == Elements(s) && NoRepeats(r)
  {
    assert forall x :: x in s <==> x in multiset(s);
    assert forall x :: x in r <==> x in multiset(r);
    forall i, j | 0 <= i < j < |r|
      ensures r[i] != r[j]
    {
      if r[i] == r[j] {
        DistinctOnce(s, r[i]);
        RepeatCounts(r, i, j);
      }
    }
  }

  lemma RepeatCounts<T>(r: seq<T>, i: nat, j: nat)
    requires i < j < |r| && r[i] == r[j]
    ensures multiset(r)[r[i]] >= 2
  {
    assert r == r[..i] + [r[i]] + r[i + 1..j] + [r[j]] + r[j + 1..];
  }

  lemma {:induction false} DistinctOnce<T>(s: seq<T>, x: T)
    requires NoRepeats(s)
    ensures multiset(s)[x] <= 1
  {
    if s != [] {
      var init := s[..|s| - 1];
      DistinctOnce(init, x);
      assert s == init + [s[|s| - 1]];
      if s[|s| - 1] == x {
        assert x !in init;
      }
    }
  }

  // ---- merging a delta into the tracked files ----

  type Tracking = map<string, ManifestFile>

  function PathOf(f: ManifestFile): string {
    f.path
  }

  /** The tracked files by path; a later entry for a path replaces an earlier one. */
  function ByPath(files: seq<ManifestFile>): (m: Tracking)
    ensures forall p :: p in m ==> m[p].path == p && m[p] in files
  {
    if files == [] then map[]
    else
      var init, last := files[..|files| - 1], files[|files| - 1];
      assert files == init + [last];
      ByPath(init)[last.path := last]
  }

  function Merge(tracked: Tracking, pre: FileIndex, post: FileIndex): Tracking {
    map p | p in tracked.Keys + post.Keys && (if p in Diff(pre, post) then p in post else p in tracked)
      :: if p in Diff(pre, post) then ToManifestFile(p, post[p]) else tracked[p]
  }

  /** The manifest entry an index gives for a path. */
  function EntryOf(index: FileIndex, p: string): Option<ManifestFile> {
    if p in index then Some(ToManifestFile(p, index[p])) else None
  }

  lemma MergeAt(tracked: Tracking, pre: FileIndex, post: FileIndex, p: string)
    ensures At(Merge(tracked, pre, post), p)
         == if At(pre, p) == At(post, p) then At(tracked, p)
            else EntryOf(post, p)
  {
    DiffMembers(pre, post);
  }

  lemma MergeIsUpdate(tracked: Tracking, pre: FileIndex, post: FileIndex, m: Tracking)
    requires forall p :: At(m, p) == if p in Diff(pre, post) then EntryOf(post, p) else At(tracked, p)
    ensures m == Merge(tracked, pre, post)
  {
    forall p
      ensures At(m, p) == At(Merge(tracked, pre, post), p)
    {
      MergeAt(tracked, pre, post, p);
      DiffMembers(pre, post);
    }
    SameEntries(m, Merge(tracked, pre, post));
  }

  /** A manifest's file list in canonical form: strictly increasing paths. */
  ghost predicate Lists(files: seq<ManifestFile>, tracked: Tracking) {
    && StrictlySortedBy(files, PathOf) && Elements(files) == tracked.Values
    && forall p :: p in tracked ==> tracked[p].path == p
  }

  /** The list is fixed by what it tracks, whatever order the mapping was walked in. */
  lemma ListingUnique(a: seq<ManifestFile>, b: seq<ManifestFile>, tracked: Tracking)
    requires Lists(a, tracked) && Lists(b, tracked)
    ensures a == b
  {
    StrictListingUnique(a, b, PathOf);
  }

  lemma {:induction false} ByPathOfListing(files: seq<ManifestFile>, f: ManifestFile)
    requires StrictlySortedBy(files, PathOf) && f in files
    ensures f.path in ByPath(files) && ByPath(files)[f.path] == f
  {
    var init, last := files[..|files| - 1], files[|files| - 1];
    if f != last {
      assert files == init + [last];
      ByPathOfListing(init, f);
      var i :| 0 <= i < |init| && init[i] == f;
      assert Below(PathOf(files[i]), PathOf(last));
      BelowTotal(f.path, last.path);
    }
  }

  /** Reading a canonical list back gives the tracking it lists. */
  lemma ListingTracks(files: seq<ManifestFile>, tracked: Tracking)
    requires Lists(files, tracked)
    ensures ByPath(files) == tracked
  {
    forall f | f in files
      ensures f.path in ByPath(files) && ByPath(files)[f.path] == f && f.path in tracked && tracked[f.path] == f
    {
      ByPathOfListing(files, f);
      assert f in Elements(files);
    }
    forall p | p in tracked
      ensures p in ByPath(files) && ByPath(files)[p] == tracked[p]
    {
      assert tracked[p] in tracked.Values;
      assert tracked[p] in Elements(files);
    }
  }

  // ---- the recorder ----

  datatype RecordError = NoIndex | NotWritten(error: ManifestWriter.WriteError)

  const FRESH := Manifest(1, 0, Nil, Nil, Nil, Nil, Nil)

  /** A listing as it goes into a snapshot: unsorted, and nil when it fails or is empty. */
  function Listing(listing: Option<seq<string>>): Slice<string> {
    match listing
    case None => Nil
    case Some(l) => Grown(l)
  }

  /** Everything `record-end` writes but the file list. */
  function Refreshed(m: Manifest, files: seq<ManifestFile>, packages: Slice<string>, services: Slice<string>, now: int)
    : Manifest
  {
    m.(generatedAt := now, files := Of(files), packageSnapshot := packages, serviceSnapshot := services)
  }

  /**
   The two files a recording uses: the manifest, when a readable one of schema 1 is
   there, and the index saved before the run.
   */
  class Recorder {
    var manifest: Option<Manifest>
    var saved: Option<FileIndex>

    constructor (manifest: Option<Manifest>)
      ensures this.manifest == manifest && saved == None
    {
      this.manifest := manifest;
      saved := None;
    }

    /** Saves the index of the roots before the run, under any schedule of the hashing pool. */
    method RecordBegin(fs: FileSystem, roots: seq<string>, procs: int, steps: seq<Pool.Step>) returns (count: nat)
      requires Pool.IsComplete(FileIndexes.IndexPool(fs, FileIndexes.Entries(fs, roots), procs), steps)
      modifies this`saved
      ensures saved == Some(FileIndexes.IndexOf(fs, roots))
      ensures count == |FileIndexes.IndexOf(fs, roots)|
    {
      var index := FileIndexes.BuildFileIndex(fs, roots, procs, steps);
      saved := Some(index);
      count := |index|;
    }

    /**
     Merges what changed under the roots since the saved index and refreshes both
     snapshots from the system. `added` counts the changed paths that exist now,
     `removed` those that do not. `end` is how writing the manifest ends.
     */
    method RecordEnd(s: Systems.System, roots: seq<string>, procs: int, steps: seq<Pool.Step>, now: int,
                     end: ManifestWriter.Phase)
      returns (r: Result<(nat, nat), RecordError>)
      requires Pool.IsComplete(FileIndexes.IndexPool(s.fs, FileIndexes.Entries(s.fs, roots), procs), steps)
      requires ManifestWriter.IsEnd(end)
      modifies this`manifest
      ensures old(saved).None? ==> r == Err(NoIndex)
      ensures old(saved).Some? && end.Failed? ==> r == Err(NotWritten(end.error))
      ensures old(saved).None? || !ManifestWriter.Installed(end) ==> manifest == old(manifest)
      ensures old(saved).Some? && ManifestWriter.Installed(end) ==>
                var post := FileIndexes.IndexOf(s.fs, roots);
                var was := if old(manifest).Some? then old(manifest).value else FRESH;
                && manifest.Some?
                && Lists(manifest.value.files.Items(), Merge(ByPath(was.files.Items()), old(saved).value, post))
                && manifest.value.packageSnapshot.Items()
                   == (if s.packagesListable then Systems.Names(s.packages) else [])
                && manifest.value.serviceSnapshot.Items()
                   == (if s.units.present && s.units.listable then s.units.active else [])
                && manifest.value.packages == was.packages && manifest.value.services == was.services
                && manifest.value.schemaVersion == was.schemaVersion && manifest.value.generatedAt == now
                && manifest.value == Refreshed(was, manifest.value.files.Items(), Listing(Systems.ListPackages(s)),
                                               Listing(Systems.ListActive(s.units)), now)
      ensures old(saved).Some? && end.Done? ==>
                var delta := Diff(old(saved).value, FileIndexes.IndexOf(s.fs, roots));
                && r.Ok?
                && r.value.0 == |set p | p in delta && p in FileIndexes.IndexOf(s.fs, roots)|
                && r.value.0 + r.value.1 == |delta|
    {
      if saved.None? {
        return Err(NoIndex);
      }
      var pre := saved.value;
      var post := FileIndexes.BuildFileIndex(s.fs, roots, procs, steps);
      var m := FRESH;
      if manifest.Some? {
        m := manifest.value;
      }
      var byPath := IndexFiles(m.files.Items());
      var delta := DiffIndexes(pre, post);
      var added, removed;
      byPath, added, removed := ApplyDelta(byPath, pre, post, delta);
      var files := ListFiles(byPath);
      if ManifestWriter.Installed(end) {
        manifest := Some(Refreshed(m, files, Listing(Systems.ListPackages(s)), Listing(Systems.ListActive(s.units)),
                                   now));
      }
      r := if end.Failed? then Err(NotWritten(end.error)) else Ok((added, removed));
    }
  }

  /** Walks the sorted delta, updating or deleting the entry of each path and counting both. */
  method ApplyDelta(tracked: Tracking, pre: FileIndex, post: FileIndex, delta: seq<string>)
    returns (byPath: Tracking, added: nat, removed: nat)
    requires StrictlySortedBy(delta, Self) && Elements(delta) == Diff(pre, post)
    requires forall p :: p in tracked ==> tracked[p].path == p
    ensures byPath == Merge(tracked, pre, post) && forall p :: p in byPath ==> byPath[p].path == p
    ensures added == |set p | p in Diff(pre, post) && p in post|
    ensures added + removed == |Diff(pre, post)|
  {
    byPath, added, removed := tracked, 0, 0;
    for i := 0 to |delta|
      invariant Applied(byPath, tracked, post, delta[..i])
      invariant added + removed == i && added == |Present(delta[..i], post)|
    {
      var p := delta[i];
      assert delta[..i + 1] == delta[..i] + [p];
      StrictPrefixFresh(delta, i);
      PresentStep(delta[..i], p, post);
      AppliedStep(byPath, tracked, post, delta[..i], p);
      if p in post {
        byPath := byPath[p := ToManifestFile(p, post[p])];
        added := added + 1;
      } else {
        byPath := byPath - {p};
        removed := removed + 1;
      }
    }
    DeltaDone(tracked, pre, post, delta, byPath);
  }

  /** `m` is `tracked` with the paths of `done` set to what they are in `post`. */
  ghost predicate Applied(m: Tracking, tracked: Tracking, post: FileIndex, done: seq<string>) {
    && (forall p :: At(m, p) == if p in done then EntryOf(post, p) else At(tracked, p))
    && forall p :: p in m ==> m[p].path == p
  }

  lemma AppliedStep(m: Tracking, tracked: Tracking, post: FileIndex, done: seq<string>, p: string)
    requires Applied(m, tracked, post, done)
    ensures Applied(if p in post then m[p := ToManifestFile(p, post[p])] else m - {p}, tracked, post, done + [p])
  {
    var next := if p in post then m[p := ToManifestFile(p, post[p])] else m - {p};
    forall q
      ensures At(next, q) == if q in done + [p] then EntryOf(post, q) else At(tracked, q)
    {
      assert q in done + [p] <==> q in done || q == p;
      assert q != p ==> At(next, q) == At(m, q);
    }
  }

  lemma DeltaDone(tracked: Tracking, pre: FileIndex, post: FileIndex, delta: seq<string>, m: Tracking)
    requires StrictlySortedBy(delta, Self) && Elements(delta) == Diff(pre, post)
    requires Applied(m, tracked, post, delta[..|delta|])
    ensures m == Merge(tracked, pre, post)
    ensures |delta| == |Diff(pre, post)|
    ensures Present(delta[..|delta|], post) == set p | p in Diff(pre, post) && p in post
  {
    assert delta[..|delta|] == delta;
    StrictSize(delta);
    forall p
      ensures p in Diff(pre, post) <==> p in delta
    {
      assert p in Elements(delta) <==> p in delta;
    }
    MergeIsUpdate(tracked, pre, post, m);
  }

  function Present(paths: seq<string>, index: FileIndex): set<string> {
    set p | p in paths && p in index
  }

  lemma PresentStep(paths: seq<string>, p: string, index: FileIndex)
    requires p !in paths
    ensures |Present(paths + [p], index)| == |Present(paths, index)| + if p in index then 1 else 0
  {
    assert forall q :: q in paths + [p] <==> q in paths || q == p;
    assert Present(paths + [p], index) == Present(paths, index) + if p in index then {p} else {};
  }

  lemma StrictPrefixFresh(s: seq<string>, i: nat)
    requires i < |s| && StrictlySortedBy(s, Self)
    ensures s[i] !in s[..i]
  {
    BelowTotal(s[i], s[i]);
    assert forall k :: 0 <= k < i ==> Below(Self(s[k]), Self(s[i]));
  }

  lemma SameEntries(a: Tracking, b: Tracking)
    requires forall p :: At(a, p) == At(b, p)
    ensures a == b
  {
    assert forall p :: p in a <==> At(a, p).Some?;
    assert forall p :: p in b <==> At(b, p).Some?;
    assert a.Keys == b.Keys;
    assert forall p :: p in a ==> At(a, p) == Some(a[p]) && At(b, p) == Some(b[p]);
  }

  lemma {:induction false} StrictSize(s: seq<string>)
    requires StrictlySortedBy(s, Self)
    ensures |Elements(s)| == |s|
  {
    if s != [] {
      HeadOnlyFirst(s, Self);
      StrictSize(s[1..]);
      assert Elements(s) == Elements(s[1..]) + {s[0]} by {
        assert s[0] in Elements(s);
      }
    }
  }

  method IndexFiles(files: seq<ManifestFile>) returns (m: Tracking)
    ensures m == ByPath(files)
  {
    m := map[];
    for i := 0 to |files|
      invariant m == ByPath(files[..i])
    {
      assert files[..i + 1][..i] == files[..i];
      m := m[files[i].path := files[i]];
    }
    assert files[..|files|] == files;
  }

  /** The tracked files sorted by path. */
  method ListFiles(tracked: Tracking) returns (files: seq<ManifestFile>)
    requires forall p :: p in tracked ==> tracked[p].path == p
    ensures Lists(files, tracked)
  {
    files := [];
    var keys := tracked.Keys;
    while keys != {}
      invariant keys <= tracked.Keys
      invariant forall i, j :: 0 <= i < j < |files| ==> files[i].path != files[j].path
      invariant forall f :: f in files <==> f.path in tracked.Keys - keys && tracked[f.path] == f
    {
      var p :| p in keys;
      files := files + [tracked[p]];
      keys := keys - {p};
    }
    ghost var unsorted := files;
    files := Sort(files, PathOf);
    SortSorts(unsorted, PathOf);
    SortKeepsDistinct(unsorted, files);
    assert forall f :: f in files <==> f in Elements(files);
    assert forall f :: f in unsorted <==> f in Elements(unsorted);
    forall i, j | 0 <= i < j < |files|
      ensures PathOf(files[i]) != PathOf(files[j])
    {
      assert files[i] in unsorted && files[j] in unsorted;
    }
    SortedIsStrict(files, PathOf);
    forall f
      ensures f in Elements(files) <==> f in tracked.Values
    {
      if f in tracked.Values {
        var p :| p in tracked && tracked[p] == f;
      }
    }
  }

  // ---- histories ----

  /** One record-begin, run and record-end, by the two indexes it saw. */
  datatype Cycle = Cycle(pre: FileIndex, post: FileIndex)

  /** What a manifest tracks after the cycles, from none. */
  function Tracked(history: seq<Cycle>): Tracking {
    if history == [] then map[]
    else Merge(Tracked(history[..|history| - 1]), history[|history| - 1].pre, history[|history| - 1].post)
  }

  /** The post index of the last cycle whose run changed `p`. */
  function LastChange(history: seq<Cycle>, p: string): Option<FileIndex> {
    if history == [] then None
    else
      var last := history[|history| - 1];
      if At(last.pre, p) != At(last.post, p) then Some(last.post) else LastChange(history[..|history| - 1], p)
  }

  /**
   A path is tracked with its attributes at the end of the last cycle that changed
   it; it is not tracked when no cycle changed it or the last one that did deleted it.
   */
  lemma {:induction false} TrackedIsLastChange(history: seq<Cycle>, p: string)
    ensures At(Tracked(history), p)
         == match LastChange(history, p)
            case None => None
            case Some(post) => EntryOf(post, p)
  {
    if history != [] {
      var init, last := history[..|history| - 1], history[|history| - 1];
      TrackedIsLastChange(init, p);
      MergeAt(Tracked(init), last.pre, last.post, p);
    }
  }

  /**
   Changes between cycles are not adopted: as long as no later run changes `p`, its
   entry stays what it was, however `p` moved from one cycle to the next.
   */
  lemma DriftIsNotAdopted(history: seq<Cycle>, later: seq<Cycle>, p: string)
    requires forall c :: c in later ==> At(c.pre, p) == At(c.post, p)
    ensures At(Tracked(history + later), p) == At(Tracked(history), p)
  {
    LastChangeKept(history, later, p);
    TrackedIsLastChange(history, p);
    TrackedIsLastChange(history + later, p);
  }

  /** Between the cycles nothing happened to `p`. */
  ghost predicate IsUnbroken(history: seq<Cycle>, p: string) {
    forall i :: 0 < i < |history| ==> At(history[i - 1].post, p) == At(history[i].pre, p)
  }

  /** Then `p`, if tracked, is tracked as the last cycle found it. */
  lemma {:induction false} UnbrokenIsCurrent(history: seq<Cycle>, p: string)
    requires history != [] && IsUnbroken(history, p) && p in Tracked(history)
    ensures At(Tracked(history), p) == EntryOf(history[|history| - 1].post, p)
  {
    var init, last := history[..|history| - 1], history[|history| - 1];
    MergeAt(Tracked(init), last.pre, last.post, p);
    if At(last.pre, p) == At(last.post, p) && init != [] {
      UnbrokenIsCurrent(init, p);
      assert At(history[|history| - 2].post, p) == At(last.pre, p);
    }
  }

  lemma {:induction false} LastChangeKept(history: seq<Cycle>, later: seq<Cycle>, p: string)
    requires forall c :: c in later ==> At(c.pre, p) == At(c.post, p)
    ensures LastChange(history + later, p) == LastChange(history, p)
    decreases |later|
  {
    if later == [] {
      assert history + later == history;
    } else {
      var init, last := later[..|later| - 1], later[|later| - 1];
      assert later == init + [last] && last in later;
      LastChangeKept(history, init, p);
      var all := history + later;
      assert all[..|all| - 1] == history + init && all[|all| - 1] == last;
    }
  }

  /** One recording after the other: each file list merges its cycle into the one before. */
  ghost predicate IsRecording(cycles: seq<Cycle>, lists: seq<seq<ManifestFile>>) {
    && |lists| == |cycles| + 1 && lists[0] == []
    && forall i :: 0 <= i < |cycles| ==> Lists(lists[i + 1], Merge(ByPath(lists[i]), cycles[i].pre, cycles[i].post))
  }

  /** The file lists that record-end writes, read back, are what the history says is tracked. */
  lemma {:induction false} RecordingTracks(cycles: seq<Cycle>, lists: seq<seq<ManifestFile>>, k: nat)
    requires IsRecording(cycles, lists) && k <= |cycles|
    ensures ByPath(lists[k]) == Tracked(cycles[..k])
    ensures k > 0 ==> Lists(lists[k], Tracked(cycles[..k]))
  {
    if k > 0 {
      RecordingTracks(cycles, lists, k - 1);
      assert cycles[..k][..k - 1] == cycles[..k - 1];
      assert Lists(lists[k - 1 + 1], Merge(ByPath(lists[k - 1]), cycles[k - 1].pre, cycles[k - 1].post));
      ListingTracks(lists[k], Tracked(cycles[..k]));
    }
  }

  // ---- fusing cycles ----

  /**
   Two cycles a-b and b-c against the one cycle a-c: the fused delta is contained in
   the two, and the entries agree on a path exactly when the fused delta has it, or
   the first one lacks it, or the entry was already that of c.
   */
  lemma FusedCyclesAgreeIff(tracked: Tracking, a: FileIndex, b: FileIndex, c: FileIndex, p: string)
    ensures Diff(a, c) <= Diff(a, b) + Diff(b, c)
    ensures At(Merge(Merge(tracked, a, b), b, c), p) == At(Merge(tracked, a, c), p)
       <==> p in Diff(a, c) || p !in Diff(a, b) || At(tracked, p) == EntryOf(c, p)
  {
    DiffMembers(a, b);
    DiffMembers(b, c);
    DiffMembers(a, c);
    MergeAt(tracked, a, b, p);
    MergeAt(Merge(tracked, a, b), b, c, p);
    MergeAt(tracked, a, c, p);
  }
}
