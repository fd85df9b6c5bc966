/**
 Building the index of all regular files under some roots: a sequential walk,
 then hashing on the worker pool with the map guarded by a mutex.
 */
module FileIndexes {
  import opened Wrappers
  import opened Manifests
  import opened Paths
  import opened Text
  import opened Sequences
  import Pool

  // ---- the walk ----

  /** What goes in front of the names in a directory the walk has come to. */
  function Prefix(dir: string): (r: string)
    ensures |r| >= |dir|
  {
    if dir == "/" then "/" else dir + "/"
  }

  /** The same for a root, which is cleaned on the way. */
  function RootPrefix(root: string): string {
    if CleanAny(root) == "." then "" else Prefix(CleanAny(root))
  }

  /** A regular file in its own right, not through a link. */
  predicate IsRegularEntry(fs: FileSystem, p: string) {
    p in fs && !fs[p].link && fs[p].target.File? && fs[p].target.regular
  }

  predicate IsOpenDir(fs: FileSystem, p: string) {
    p in fs && !fs[p].link && fs[p].target.Dir? && fs[p].target.listing.Some?
  }

  /** The paths that can still lie below a path of length `n`: they bound the walk. */
  ghost function AtLeast(fs: FileSystem, n: nat): set<string> {
    set k | k in fs && |k| >= n
  }

  /** The regular files at or below `p`, in listing order; unreadable subtrees are skipped. */
  function Walk(fs: FileSystem, p: string): seq<string>
    decreases AtLeast(fs, |p|), 0, 0
  {
    if IsRegularEntry(fs, p) then [p]
    else if IsOpenDir(fs, p) then
      assert AtLeast(fs, |Prefix(p)| + 1) < AtLeast(fs, |p|) by {
        assert p in AtLeast(fs, |p|) && p !in AtLeast(fs, |Prefix(p)| + 1);
      }
      WalkAll(fs, Prefix(p), fs[p].target.listing.value)
    else []
  }

  function WalkAll(fs: FileSystem, prefix: string, names: seq<EntryName>): seq<string>
    decreases AtLeast(fs, |prefix| + 1), 1, |names|
  {
    if names == [] then []
    else
      assert AtLeast(fs, |prefix + names[0]|) <= AtLeast(fs, |prefix| + 1);
      Walk(fs, prefix + names[0]) + WalkAll(fs, prefix, names[1..])
  }

  /** A root is looked up as spelled; the paths below it are clean. */
  function WalkRoot(fs: FileSystem, root: string): seq<string> {
    if IsRegularEntry(fs, root) then [root]
    else if IsOpenDir(fs, root) then WalkAll(fs, RootPrefix(root), fs[root].target.listing.value)
    else []
  }

  /** The reference: what a chain of names below a root is called, behind its cleaned path. */
  function PathAt(root: string, names: seq<EntryName>): string {
    var clean := CleanAny(root);
    if names == [] then root
    else if clean == "." then JoinWith(names, '/')
    else if clean == "/" then "/" + JoinWith(names, '/')
    else clean + "/" + JoinWith(names, '/')
  }

  /** Each name is listed in an open directory, the root or what the names before it lead to. */
  ghost predicate Opens(fs: FileSystem, root: string, names: seq<EntryName>) {
    forall k :: 0 <= k < |names| ==> Holds(fs, PathAt(root, names[..k]), names[k])
  }

  /** A directory in its own right that can be listed and lists `n`. */
  predicate Holds(fs: FileSystem, d: string, n: EntryName) {
    d in fs && match fs[d] { case Node(false, Dir(Some(names))) => n in names case _ => false }
  }

  /** The root itself, or what names lead to from it. */
  ghost predicate Under(fs: FileSystem, root: string, p: string) {
    exists names: seq<EntryName> :: Opens(fs, root, names) && PathAt(root, names) == p
  }

  /** Where a chain of names leads through open directories. */
  ghost function Descend(fs: FileSystem, p: string, names: seq<EntryName>): Option<string>
    decreases |names|
  {
    if names == [] then Some(p)
    else if IsOpenDir(fs, p) && names[0] in fs[p].target.listing.value then
      Descend(fs, Prefix(p) + names[0], names[1..])
    else None
  }

  ghost predicate Reaches(fs: FileSystem, p: string, at: string) {
    exists names: seq<EntryName> :: Descend(fs, p, names) == Some(at)
  }

  /** The names below `p`, which is no root directory. */
  function Below(p: string, names: seq<EntryName>): string {
    if names == [] then p else p + "/" + JoinWith(names, '/')
  }

  ghost predicate OpensBelow(fs: FileSystem, p: string, names: seq<EntryName>) {
    forall k :: 0 <= k < |names| ==> Holds(fs, Below(p, names[..k]), names[k])
  }

  lemma BelowFirst(p: string, names: seq<EntryName>)
    requires names != []
    ensures Below(p, names) == Below(p + "/" + names[0], names[1..])
  {
    if |names| > 1 {
      Regroup(p + "/", names[0] + "/", JoinWith(names[1..], '/'));
      Regroup(p + "/", names[0], "/");
    }
  }

  lemma Regroup(a: string, b: string, c: string)
    ensures a + (b + c) == a + b + c
  {
  }

  lemma OpensFirst(fs: FileSystem, p: string, names: seq<EntryName>)
    requires names != []
    ensures OpensBelow(fs, p, names) <==>
            Holds(fs, p, names[0]) && OpensBelow(fs, p + "/" + names[0], names[1..])
  {
    var rest := names[1..];
    assert names[..0] == [];
    forall k | 0 <= k < |rest|
      ensures Below(p, names[..k + 1]) == Below(p + "/" + names[0], rest[..k]) && names[k + 1] == rest[k]
    {
      assert names[..k + 1][1..] == rest[..k] && names[..k + 1][0] == names[0];
      BelowFirst(p, names[..k + 1]);
    }
    if OpensBelow(fs, p, names) {
      assert Holds(fs, Below(p, names[..0]), names[0]);
      forall k | 0 <= k < |rest|
        ensures Holds(fs, Below(p + "/" + names[0], rest[..k]), rest[k])
      {
        assert Holds(fs, Below(p, names[..k + 1]), names[k + 1]);
      }
    }
    if Holds(fs, p, names[0]) && OpensBelow(fs, p + "/" + names[0], rest) {
      forall k | 0 <= k < |names|
        ensures Holds(fs, Below(p, names[..k]), names[k])
      {
        if k > 0 {
          assert Holds(fs, Below(p + "/" + names[0], rest[..k - 1]), rest[k - 1]);
          assert Below(p, names[..k - 1 + 1]) == Below(p + "/" + names[0], rest[..k - 1]);
        }
      }
    }
  }

  lemma {:induction false} DescendIsBelow(fs: FileSystem, p: string, names: seq<EntryName>, at: string)
    requires p != "/"
    ensures Descend(fs, p, names) == Some(at) <==> OpensBelow(fs, p, names) && Below(p, names) == at
    decreases |names|
  {
    if names != [] {
      OpensFirst(fs, p, names);
      BelowFirst(p, names);
      assert names[0][0] in names[0];
      DescendIsBelow(fs, p + "/" + names[0], names[1..], at);
    }
  }
  /** A root and the first name below it, then the rest. */
  lemma PathAtFirst(root: string, names: seq<EntryName>)
    requires names != []
    ensures PathAt(root, names) == Below(RootPrefix(root) + names[0], names[1..])
    ensures RootPrefix(root) + names[0] != "/"
  {
    var clean, n := CleanAny(root), names[0];
    assert n[0] in n;
    assert "" + n == n;
    if |names| > 1 {
      var rest := JoinWith(names[1..], '/');
      assert JoinWith(names, '/') == n + "/" + rest;
      Regroup("/", n + "/", rest);
      Regroup("/", n, "/");
      Regroup(clean + "/", n + "/", rest);
      Regroup(clean + "/", n, "/");
    }
  }

  lemma OpensAtFirst(fs: FileSystem, root: string, names: seq<EntryName>)
    requires names != []
    ensures Opens(fs, root, names) <==>
            Holds(fs, root, names[0]) && OpensBelow(fs, RootPrefix(root) + names[0], names[1..])
  {
    var base, rest := RootPrefix(root) + names[0], names[1..];
    assert names[..0] == [];
    forall k | 0 <= k < |rest|
      ensures PathAt(root, names[..k + 1]) == Below(base, rest[..k]) && names[k + 1] == rest[k]
    {
      assert names[..k + 1][1..] == rest[..k] && names[..k + 1][0] == names[0];
      PathAtFirst(root, names[..k + 1]);
    }
    if Opens(fs, root, names) {
      assert Holds(fs, PathAt(root, names[..0]), names[0]);
      forall k | 0 <= k < |rest|
        ensures Holds(fs, Below(base, rest[..k]), rest[k])
      {
        assert Holds(fs, PathAt(root, names[..k + 1]), names[k + 1]);
      }
    }
    if Holds(fs, root, names[0]) && OpensBelow(fs, base, rest) {
      forall k | 0 <= k < |names|
        ensures Holds(fs, PathAt(root, names[..k]), names[k])
      {
        if k > 0 {
          assert Holds(fs, Below(base, rest[..k - 1]), rest[k - 1]);
          assert PathAt(root, names[..k - 1 + 1]) == Below(base, rest[..k - 1]);
        }
      }
    }
  }

  lemma ChainFromRoot(fs: FileSystem, root: string, names: seq<EntryName>, p: string)
    requires names != []
    ensures Opens(fs, root, names) && PathAt(root, names) == p <==>
            Holds(fs, root, names[0]) && Descend(fs, RootPrefix(root) + names[0], names[1..]) == Some(p)
  {
    PathAtFirst(root, names);
    OpensAtFirst(fs, root, names);
    DescendIsBelow(fs, RootPrefix(root) + names[0], names[1..], p);
  }

  lemma UnderIff(fs: FileSystem, root: string, p: string)
    ensures Under(fs, root, p) <==>
            || p == root
            || (IsOpenDir(fs, root)
                && exists name: EntryName ::
                     name in fs[root].target.listing.value && Reaches(fs, RootPrefix(root) + name, p))
  {
    if p == root {
      assert Opens(fs, root, []) && PathAt(root, []) == p;
    }
    if names: seq<EntryName> :| Opens(fs, root, names) && PathAt(root, names) == p && names != [] {
      ChainFromRoot(fs, root, names, p);
      assert Reaches(fs, RootPrefix(root) + names[0], p);
    }
    if IsOpenDir(fs, root) {
      if name: EntryName :| name in fs[root].target.listing.value && Reaches(fs, RootPrefix(root) + name, p) {
        var rest: seq<EntryName> :| Descend(fs, RootPrefix(root) + name, rest) == Some(p);
        assert ([name] + rest)[1..] == rest;
        ChainFromRoot(fs, root, [name] + rest, p);
        assert Opens(fs, root, [name] + rest);
      }
    }
  }

  lemma {:induction false} WalkReaches(fs: FileSystem, p: string, at: string)
    ensures at in Walk(fs, p) <==> Reaches(fs, p, at) && IsRegularEntry(fs, at)
    decreases AtLeast(fs, |p|), 0, 0
  {
    if IsRegularEntry(fs, p) {
      assert Descend(fs, p, []) == Some(p);
      forall names: seq<EntryName> | Descend(fs, p, names) == Some(at)
        ensures at == p
      {
      }
    } else if IsOpenDir(fs, p) {
      assert p in AtLeast(fs, |p|) && p !in AtLeast(fs, |Prefix(p)| + 1);
      WalkAllReaches(fs, Prefix(p), fs[p].target.listing.value, at);
      forall names: seq<EntryName> | Descend(fs, p, names) == Some(at) && IsRegularEntry(fs, at)
        ensures at in Walk(fs, p)
      {
        assert names != [];
        assert Descend(fs, Prefix(p) + names[0], names[1..]) == Some(at);
        assert Reaches(fs, Prefix(p) + names[0], at);
      }
      if at in Walk(fs, p) {
        var name: EntryName :| name in fs[p].target.listing.value && Reaches(fs, Prefix(p) + name, at);
        var names: seq<EntryName> :| Descend(fs, Prefix(p) + name, names) == Some(at);
        assert ([name] + names)[1..] == names;
        assert Descend(fs, p, [name] + names) == Some(at);
      }
    } else {
      forall names: seq<EntryName> | Descend(fs, p, names) == Some(at)
        ensures at == p
      {
      }
    }
  }

  lemma {:induction false} WalkAllReaches(fs: FileSystem, prefix: string, names: seq<EntryName>, at: string)
    ensures at in WalkAll(fs, prefix, names) <==>
            IsRegularEntry(fs, at) && exists name: EntryName :: name in names && Reaches(fs, prefix + name, at)
    decreases AtLeast(fs, |prefix| + 1), 1, |names|
  {
    if names != [] {
      assert AtLeast(fs, |prefix + names[0]|) <= AtLeast(fs, |prefix| + 1);
      WalkReaches(fs, prefix + names[0], at);
      WalkAllReaches(fs, prefix, names[1..], at);
      assert forall name: EntryName :: name in names <==> name == names[0] || name in names[1..];
    }
  }

  /** The walk of a root finds exactly the regular files that chains of open directories lead to. */
  lemma WalkIsUnder(fs: FileSystem, root: string, p: string)
    ensures p in WalkRoot(fs, root) <==> Under(fs, root, p) && IsRegularEntry(fs, p)
  {
    UnderIff(fs, root, p);
    if IsOpenDir(fs, root) {
      WalkAllReaches(fs, RootPrefix(root), fs[root].target.listing.value, p);
    }
  }

  /** One directory spelled in two ways is walked to the same paths, so overlapping roots share their keys. */
  lemma WalkIgnoresSpelling(fs: FileSystem, a: string, b: string)
    requires IsOpenDir(fs, a) && b in fs && fs[a] == fs[b] && CleanAny(a) == CleanAny(b)
    ensures WalkRoot(fs, a) == WalkRoot(fs, b)
  {
  }

  function Entries(fs: FileSystem, roots: seq<string>): seq<string> {
    if roots == [] then []
    else (if roots[0] == "" then [] else WalkRoot(fs, roots[0])) + Entries(fs, roots[1..])
  }

  method CollectEntries(fs: FileSystem, roots: seq<string>) returns (entries: seq<string>)
    ensures entries == Entries(fs, roots)
  {
    entries := [];
    for i := 0 to |roots|
      invariant entries + Entries(fs, roots[i..]) == Entries(fs, roots)
    {
      assert roots[i..][1..] == roots[i + 1..];
      Shift(entries, if roots[i] == "" then [] else WalkRoot(fs, roots[i]), Entries(fs, roots[i + 1..]));
      if roots[i] != "" {
        entries := entries + WalkRoot(fs, roots[i]);
      }
    }
  }

  lemma {:induction false} EntriesUnder(fs: FileSystem, roots: seq<string>, p: string)
    ensures p in Entries(fs, roots) <==> IsRegularEntry(fs, p) && exists r :: r in roots && r != "" && Under(fs, r, p)
  {
    if roots != [] {
      WalkIsUnder(fs, roots[0], p);
      EntriesUnder(fs, roots[1..], p);
      assert forall r :: r in roots <==> r == roots[0] || r in roots[1..];
    }
  }

  // ---- the pool ----

  predicate IsHashable(fs: FileSystem, p: string) {
    IsRegularEntry(fs, p) && fs[p].target.readable
  }

  /** The pool that hashes the entries; a readable one is inserted under the mutex. */
  function IndexPool(fs: FileSystem, entries: seq<string>, procs: int): Pool.Config<FileIndex> {
    Pool.Config(
      |entries|,
      Pool.BoundedWorkers(|entries|, procs),
      map[],
      (idx: FileIndex, j: nat) =>
        if j < |entries| && IsHashable(fs, entries[j]) then idx[entries[j] := fs[entries[j]].target.attrs] else idx,
      (j: nat) => j < |entries| && IsHashable(fs, entries[j]))
  }

  /** Some entry for `p` has been hashed and published. */
  ghost predicate Inserted(fs: FileSystem, entries: seq<string>, log: seq<nat>, p: string) {
    IsHashable(fs, p) && exists j: nat :: j < |entries| && Pool.Published(log, j) > 0 && entries[j] == p
  }

  lemma InsertedStep(fs: FileSystem, entries: seq<string>, log: seq<nat>, p: string)
    requires log != []
    ensures var last := log[|log| - 1];
            Inserted(fs, entries, log, p) <==>
            Inserted(fs, entries, log[..|log| - 1], p) || (last < |entries| && entries[last] == p && IsHashable(fs, p))
  {
    var init, last := log[..|log| - 1], log[|log| - 1];
    assert Pool.Published(log, last) > 0;
    if j: nat :| j < |entries| && Pool.Published(init, j) > 0 && entries[j] == p {
      assert Pool.Published(log, j) > 0;
    }
    if j: nat :| j < |entries| && Pool.Published(log, j) > 0 && entries[j] == p {
      assert j == last || Pool.Published(init, j) > 0;
    }
  }

  lemma {:induction false} IndexAfter(fs: FileSystem, entries: seq<string>, procs: int, log: seq<nat>)
    ensures var idx := Pool.Replay(IndexPool(fs, entries, procs), log);
            forall p :: (p in idx <==> Inserted(fs, entries, log, p)) && (p in idx ==> idx[p] == fs[p].target.attrs)
  {
    if log != [] {
      IndexAfter(fs, entries, procs, log[..|log| - 1]);
      forall p
        ensures var idx := Pool.Replay(IndexPool(fs, entries, procs), log);
                (p in idx <==> Inserted(fs, entries, log, p)) && (p in idx ==> idx[p] == fs[p].target.attrs)
      {
        InsertedStep(fs, entries, log, p);
      }
    }
  }

  /** The index of `roots`: the readable regular files under them with their attributes. */
  ghost function IndexOf(fs: FileSystem, roots: seq<string>): FileIndex {
    map p | p in fs && IsHashable(fs, p) && (exists r :: r in roots && r != "" && Under(fs, r, p)) :: fs[p].target.attrs
  }

  /**
   On a fixed file system every interleaving of the hashing pool, with any overlap
   or repetition among the roots, finishes with the same map: the index of the roots.
   */
  lemma BuildIndexAnyInterleaving(fs: FileSystem, roots: seq<string>, procs: int, steps: seq<Pool.Step>)
    requires var c := IndexPool(fs, Entries(fs, roots), procs); Pool.Run(c, Pool.Start(c), steps).Some?
    ensures var c := IndexPool(fs, Entries(fs, roots), procs);
            var s := Pool.Run(c, Pool.Start(c), steps).value;
            && |steps| <= 5 * |Entries(fs, roots)| + 4
            && (!s.done ==> exists step :: Pool.Enabled(c, s, step))
            && (s.done ==> s.shared == IndexOf(fs, roots))
  {
    var entries := Entries(fs, roots);
    var c := IndexPool(fs, entries, procs);
    Pool.PoolCompletes(c, steps);
    var s := Pool.Run(c, Pool.Start(c), steps).value;
    if s.done {
      IndexAfter(fs, entries, procs, s.log);
      forall p
        ensures p in s.shared <==> p in IndexOf(fs, roots)
      {
        EntriesUnder(fs, roots, p);
        if p in entries && IsHashable(fs, p) {
          var j :| 0 <= j < |entries| && entries[j] == p;
          assert Pool.Published(s.log, j) == 1;
        }
      }
    }
  }

  /** The walk, then the pool run to its end on any schedule. */
  method BuildFileIndex(fs: FileSystem, roots: seq<string>, procs: int, steps: seq<Pool.Step>) returns (idx: FileIndex)
    requires Pool.IsComplete(IndexPool(fs, Entries(fs, roots), procs), steps)
    ensures idx == IndexOf(fs, roots)
  {
    var entries := CollectEntries(fs, roots);
    var c := IndexPool(fs, entries, procs);
    BuildIndexAnyInterleaving(fs, roots, procs, steps);
    idx := Pool.Run(c, Pool.Start(c), steps).value.shared;
  }

  /** Paths in an index name the root or something below it, so they are never empty. */
  lemma IndexedPathsNonEmpty(fs: FileSystem, roots: seq<string>)
    ensures "" !in IndexOf(fs, roots)
  {
    forall r, names: seq<EntryName> | r in roots && r != ""
      ensures PathAt(r, names) != ""
    {
      if names != [] {
        PathAtFirst(r, names);
      }
    }
  }

  /** The attributes of a readable regular file that is no link. */
  function ReadableFile(fs: FileSystem, p: string): Option<FileAttrs> {
    if p !in fs then None
    else match fs[p]
      case Node(false, File(true, a, true)) => Some(a)
      case _ => None
  }

  /**
   The index of a directory has a name in it exactly when that is a readable regular
   file, under the path of the directory, a slash and the name: in the root directory
   the path is only the slash, in the working directory it is left out.
   */
  lemma FileIsIndexed(fs: FileSystem, d: string, n: EntryName)
    ensures IsAbs(d) && Clean(d) == d && d != "/" && Holds(fs, d, n) ==>
              At(IndexOf(fs, [d]), d + "/" + n) == ReadableFile(fs, d + "/" + n)
    ensures Holds(fs, "/", n) ==> At(IndexOf(fs, ["/"]), "/" + n) == ReadableFile(fs, "/" + n)
    ensures Holds(fs, ".", n) ==> At(IndexOf(fs, ["."]), n) == ReadableFile(fs, n)
  {
    if IsAbs(d) && Clean(d) == d && d != "/" && Holds(fs, d, n) {
      OneBelow(fs, d, n, d + "/" + n);
    }
    if Holds(fs, "/", n) {
      RootIsClean();
      OneBelow(fs, "/", n, "/" + n);
    }
    if Holds(fs, ".", n) {
      DotIsClean();
      OneBelow(fs, ".", n, n);
    }
  }

  lemma OneBelow(fs: FileSystem, root: string, n: EntryName, p: string)
    requires root != "" && PathAt(root, [n]) == p && Holds(fs, root, n)
    ensures At(IndexOf(fs, [root]), p) == ReadableFile(fs, p)
  {
    assert [n][..0] == [];
    assert Opens(fs, root, [n]);
    assert Under(fs, root, p) && [root][0] == root;
    assert IsHashable(fs, p) <==> ReadableFile(fs, p).Some?;
  }

  lemma RootIsClean()
    ensures CleanAny("/") == "/"
  {
    CleanFixesIff("/");
  }

  lemma DotIsClean()
    ensures CleanAny(".") == "."
  {
    SplitName(".");
    assert ["."][1..] == [];
    assert PushAllRelative([], ["."]) == [];
  }

  /** The map changes only when a worker that holds the mutex publishes. */
  lemma WritesAreGuarded(fs: FileSystem, entries: seq<string>, procs: int, s: Pool.State<FileIndex>, step: Pool.Step)
    requires var c := IndexPool(fs, entries, procs);
             && Pool.Inv(c, s) && Pool.Enabled(c, s, step) && Pool.Next(c, s, step).shared != s.shared
    ensures step.Publish? && s.mutex == Some(step.w)
  {
  }
}
