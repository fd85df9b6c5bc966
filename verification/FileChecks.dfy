/**
 Verifying tracked files: the decision chain for one file, the pool that runs it
 on all of them, and what the fast mode and the check set change.
 */
module FileChecks {
  import opened Wrappers
  import opened Manifests
  import opened Sequences
  import Pool

  datatype Issue =
    | Missing | StatFailed | IsDirectory | ModeMismatch | Unreadable | HashMismatch | SizeMismatch | MTimeMismatch

  datatype FileDeviation = FileDeviation(issue: Issue, path: string)

  const DEFAULT_CHECKS: seq<string> := ["sha256", "mode"]

  /** What the checker asserts of an entry before looking at it. */
  predicate IsCheckable(f: ManifestFile) {
    f.path != "" && f.sha256 != ""
  }

  predicate ModeDiffers(f: ManifestFile, a: FileAttrs, checks: seq<string>) {
    "mode" in checks && f.mode != "" && a.mode != f.mode
  }

  /** The stat result the fast mode trusts instead of hashing. */
  predicate StatMatches(f: ManifestFile, a: FileAttrs) {
    f.size != 0 && f.mtime != 0 && a.size == f.size && a.mtime == f.mtime
  }

  function CheckFile(fs: FileSystem, f: ManifestFile, checks: seq<string>, fast: bool): Option<Issue>
    requires IsCheckable(f)
  {
    if f.path !in fs then Some(Missing)
    else match fs[f.path].target
      case Denied => Some(StatFailed)
      case Dir(_) => Some(IsDirectory)
      case File(_, a, readable) =>
        if ModeDiffers(f, a, checks) then Some(ModeMismatch)
        else if fast && StatMatches(f, a) then None
        else if !readable then Some(Unreadable)
        else if a.sha256 != f.sha256 then Some(HashMismatch)
        else if "size" in checks && f.size != 0 && a.size != f.size then Some(SizeMismatch)
        else if "mtime" in checks && f.mtime != 0 && a.mtime != f.mtime then Some(MTimeMismatch)
        else None
  }

  ghost predicate AllCheckable(files: seq<ManifestFile>) {
    forall f :: f in files ==> IsCheckable(f)
  }

  /** The reference: the files checked one after the other. */
  function CheckInOrder(fs: FileSystem, files: seq<ManifestFile>, checks: seq<string>, fast: bool): seq<FileDeviation>
    requires AllCheckable(files)
  {
    if files == [] then []
    else
      assert files[0] in files && AllCheckable(files[1..]);
      Label(CheckFile(fs, files[0], checks, fast), files[0]) + CheckInOrder(fs, files[1..], checks, fast)
  }

  /** An entry passes exactly when every attribute that is compared for it agrees. */
  lemma CheckFilePassesIff(fs: FileSystem, f: ManifestFile, checks: seq<string>, fast: bool)
    requires IsCheckable(f)
    ensures CheckFile(fs, f, checks, fast).None? <==>
            && f.path in fs && fs[f.path].target.File?
            && var a := fs[f.path].target.attrs;
            && !ModeDiffers(f, a, checks)
            && ((fast && StatMatches(f, a))
                || (ContentIntact(fs, f)
                    && ("size" in checks && f.size != 0 ==> a.size == f.size)
                    && ("mtime" in checks && f.mtime != 0 ==> a.mtime == f.mtime)))
  {
  }

  /** The reported deviations are those of the single entries, each under its path. */
  lemma {:induction false} CheckInOrderMembers(fs: FileSystem, files: seq<ManifestFile>, checks: seq<string>,
                                               fast: bool, d: FileDeviation)
    requires AllCheckable(files)
    ensures d in CheckInOrder(fs, files, checks, fast) <==>
            exists f :: f in files && f.path == d.path && CheckFile(fs, f, checks, fast) == Some(d.issue)
  {
    if files != [] {
      assert AllCheckable(files[1..]);
      CheckInOrderMembers(fs, files[1..], checks, fast, d);
      assert forall f :: f in files <==> f == files[0] || f in files[1..];
    }
  }

  // ---- the pool ----

  /** The pool that fills one slot per file. */
  function CheckPool(fs: FileSystem, files: seq<ManifestFile>, checks: seq<string>, fast: bool, procs: int)
    : Pool.Config<seq<Option<Issue>>>
  {
    Pool.Config(
      |files|,
      Pool.BoundedWorkers(|files|, procs),
      seq(|files|, _ => None),
      (slots: seq<Option<Issue>>, j: nat) =>
        if j < |slots| && j < |files| && IsCheckable(files[j]) then slots[j := CheckFile(fs, files[j], checks, fast)]
        else slots,
      j => false)
  }

  lemma {:induction false} SlotsAfter(fs: FileSystem, files: seq<ManifestFile>, checks: seq<string>, fast: bool,
                                      procs: int, log: seq<nat>)
    requires AllCheckable(files)
    ensures var slots := Pool.Replay(CheckPool(fs, files, checks, fast, procs), log);
            && |slots| == |files|
            && forall j: nat :: j < |files| ==>
              slots[j] == if Pool.Published(log, j) > 0 then CheckFile(fs, files[j], checks, fast) else None
  {
    if log != [] {
      SlotsAfter(fs, files, checks, fast, procs, log[..|log| - 1]);
    }
  }

  /** The result slice turned into deviations, in file order. */
  method CollectDeviations(results: seq<Option<Issue>>, files: seq<ManifestFile>)
    returns (deviations: seq<FileDeviation>)
    requires |results| == |files|
    ensures deviations == Labelled(results, files)
  {
    deviations := [];
    for i := 0 to |results|
      invariant deviations + Labelled(results[i..], files[i..]) == Labelled(results, files)
    {
      assert results[i..][1..] == results[i + 1..] && files[i..][1..] == files[i + 1..];
      Shift(deviations, Label(results[i], files[i]), Labelled(results[i + 1..], files[i + 1..]));
      if results[i].Some? {
        deviations := deviations + [FileDeviation(results[i].value, files[i].path)];
      }
    }
  }

  function Label(result: Option<Issue>, f: ManifestFile): seq<FileDeviation> {
    match result
    case None => []
    case Some(i) => [FileDeviation(i, f.path)]
  }

  function Labelled(results: seq<Option<Issue>>, files: seq<ManifestFile>): seq<FileDeviation>
    requires |results| == |files|
  {
    if results == [] then []
    else Label(results[0], files[0]) + Labelled(results[1..], files[1..])
  }

  lemma {:induction false} LabelledInOrder(fs: FileSystem, files: seq<ManifestFile>, checks: seq<string>, fast: bool,
                                           results: seq<Option<Issue>>)
    requires AllCheckable(files) && |results| == |files|
    requires forall j :: 0 <= j < |files| ==> results[j] == CheckFile(fs, files[j], checks, fast)
    ensures Labelled(results, files) == CheckInOrder(fs, files, checks, fast)
  {
    if files != [] {
      assert AllCheckable(files[1..]);
      LabelledInOrder(fs, files[1..], checks, fast, results[1..]);
    }
  }

  /**
   Every interleaving of the pool, for any files and any processor count, can
   always go on until it is done, has a bounded length, writes each slot exactly
   once, and ends with the deviations of the one-by-one check.
   */
  lemma CheckFilesAnyInterleaving(fs: FileSystem, files: seq<ManifestFile>, checks: seq<string>, fast: bool,
                                  procs: int, steps: seq<Pool.Step>)
    requires AllCheckable(files)
    requires Pool.Run(CheckPool(fs, files, checks, fast, procs), Pool.Start(CheckPool(fs, files, checks, fast, procs)),
                      steps).Some?
    ensures var c := CheckPool(fs, files, checks, fast, procs);
            var s := Pool.Run(c, Pool.Start(c), steps).value;
            && |s.shared| == |files|
            && |steps| <= 5 * |files| + 4
            && (!s.done ==> exists step :: Pool.Enabled(c, s, step))
            && (s.done ==> Pool.EachOnce(s.log, |files|))
            && (s.done ==> Labelled(s.shared, files) == CheckInOrder(fs, files, checks, fast))
  {
    var c := CheckPool(fs, files, checks, fast, procs);
    var s := Pool.Run(c, Pool.Start(c), steps).value;
    Pool.PoolCompletes(c, steps);
    Pool.StartInv(c);
    Pool.RunInv(c, Pool.Start(c), steps);
    SlotsAfter(fs, files, checks, fast, procs, s.log);
    if s.done {
      LabelledInOrder(fs, files, checks, fast, s.shared);
    }
  }

  /** The pool run to its end on any schedule, and its slots turned into deviations. */
  method CheckFiles(fs: FileSystem, files: seq<ManifestFile>, checks: seq<string>, fast: bool, procs: int,
                    steps: seq<Pool.Step>)
    returns (deviations: seq<FileDeviation>)
    requires AllCheckable(files) && Pool.IsComplete(CheckPool(fs, files, checks, fast, procs), steps)
    ensures deviations == CheckInOrder(fs, files, checks, fast)
  {
    var c := CheckPool(fs, files, checks, fast, procs);
    CheckFilesAnyInterleaving(fs, files, checks, fast, procs, steps);
    deviations := CollectDeviations(Pool.Run(c, Pool.Start(c), steps).value.shared, files);
  }

  // ---- fast against full ----

  /** The files on which the fast mode skips the hash. */
  predicate SkipsHash(fs: FileSystem, f: ManifestFile, checks: seq<string>) {
    && f.path in fs && fs[f.path].target.File?
    && !ModeDiffers(f, fs[f.path].target.attrs, checks)
    && StatMatches(f, fs[f.path].target.attrs)
  }

  predicate ContentIntact(fs: FileSystem, f: ManifestFile) {
    && f.path in fs && fs[f.path].target.File?
    && fs[f.path].target.readable && fs[f.path].target.attrs.sha256 == f.sha256
  }

  ghost predicate IsSubsequence<T>(a: seq<T>, b: seq<T>) {
    a == [] || (b != [] && ((a[0] == b[0] && IsSubsequence(a[1..], b[1..])) || IsSubsequence(a, b[1..])))
  }

  lemma FastOnOne(fs: FileSystem, f: ManifestFile, checks: seq<string>)
    requires IsCheckable(f)
    ensures CheckFile(fs, f, checks, true) == if SkipsHash(fs, f, checks) then None else CheckFile(fs, f, checks, false)
    ensures SkipsHash(fs, f, checks) ==> (CheckFile(fs, f, checks, false).None? <==> ContentIntact(fs, f))
  {
  }

  lemma SubsequenceGrows<T>(x: seq<T>, a: seq<T>, y: seq<T>, b: seq<T>)
    requires IsSubsequence(a, b) && |y| <= 1 && (x == y || x == [])
    ensures IsSubsequence(x + a, y + b)
  {
    assert [] + a == a && [] + b == b;
    if |y| == 1 {
      assert (y + b)[1..] == b;
      if x == y {
        assert (x + a)[1..] == a;
      }
    }
  }

  /** The fast check reports a subsequence of the full check, with the same labels. */
  lemma {:induction false} FastIsSubsequence(fs: FileSystem, files: seq<ManifestFile>, checks: seq<string>)
    requires AllCheckable(files)
    ensures IsSubsequence(CheckInOrder(fs, files, checks, true), CheckInOrder(fs, files, checks, false))
    ensures |CheckInOrder(fs, files, checks, true)| <= |CheckInOrder(fs, files, checks, false)|
  {
    if files != [] {
      assert AllCheckable(files[1..]);
      FastIsSubsequence(fs, files[1..], checks);
      FastOnOne(fs, files[0], checks);
      SubsequenceGrows(Label(CheckFile(fs, files[0], checks, true), files[0]),
                       CheckInOrder(fs, files[1..], checks, true),
                       Label(CheckFile(fs, files[0], checks, false), files[0]),
                       CheckInOrder(fs, files[1..], checks, false));
    }
  }

  /** Both agree exactly when each file whose hash is skipped is in fact readable and unchanged. */
  lemma {:induction false} FastEqualsFullIff(fs: FileSystem, files: seq<ManifestFile>, checks: seq<string>)
    requires AllCheckable(files)
    ensures CheckInOrder(fs, files, checks, true) == CheckInOrder(fs, files, checks, false)
       <==> forall f :: f in files && SkipsHash(fs, f, checks) ==> ContentIntact(fs, f)
  {
    if files != [] {
      var rest := files[1..];
      assert AllCheckable(rest);
      FastEqualsFullIff(fs, rest, checks);
      FastIsSubsequence(fs, rest, checks);
      FastOnOne(fs, files[0], checks);
      assert forall f :: f in files <==> f == files[0] || f in rest;
      var quick, full := CheckInOrder(fs, files, checks, true), CheckInOrder(fs, files, checks, false);
      if SkipsHash(fs, files[0], checks) && !ContentIntact(fs, files[0]) {
        assert |quick| < |full|;
      } else if CheckFile(fs, files[0], checks, false).Some? {
        assert quick[1..] == CheckInOrder(fs, rest, checks, true) && full[1..] == CheckInOrder(fs, rest, checks, false);
      } else {
        assert quick == CheckInOrder(fs, rest, checks, true) && full == CheckInOrder(fs, rest, checks, false);
      }
    }
  }

  // ---- the check set ----

  ghost predicate Weaker(small: seq<string>, large: seq<string>) {
    forall fs: FileSystem, f: ManifestFile, fast: bool ::
      IsCheckable(f) && CheckFile(fs, f, small, fast).Some? ==> CheckFile(fs, f, large, fast).Some?
  }

  /** Enlarging the check set only grows the set of deviating entries. */
  lemma CheckSetMonotone(small: seq<string>, large: seq<string>)
    requires Elements(small) <= Elements(large)
    ensures Weaker(small, large)
  {
    forall name | name in small
      ensures name in large
    {
      assert name in Elements(small);
    }
  }

  /** The set a run uses: an empty one becomes the default. */
  function Effective(configured: seq<string>): seq<string> {
    if configured == [] then DEFAULT_CHECKS else configured
  }

  /**
   For configured sets monotonicity fails at the empty one, which stands for the
   default: it holds exactly when the smaller set is not empty, the larger one is
   empty too, or the larger one keeps "mode".
   */
  lemma ConfiguredMonotoneIff(small: seq<string>, large: seq<string>)
    requires Elements(small) <= Elements(large)
    ensures Weaker(Effective(small), Effective(large)) <==> small != [] || large == [] || "mode" in large
  {
    if small != [] {
      assert small[0] in Elements(small);
      assert large != [];
      CheckSetMonotone(small, large);
    } else if large == [] {
    } else if "mode" in large {
      ModeDecides(DEFAULT_CHECKS, large);
    } else {
      OnlyModeDiffers(large);
    }
  }

  /** Of the default set only "mode" is ever consulted. */
  lemma ModeDecides(small: seq<string>, large: seq<string>)
    requires small == DEFAULT_CHECKS && "mode" in large
    ensures Weaker(small, large)
  {
    assert "size" !in small && "mtime" !in small by {
      assert |"size"| == 4 && "size"[0] == 's' && |"mtime"| == 5;
      assert |"mode"| == 4 && "mode"[0] == 'm' && |"sha256"| == 6;
    }
  }

  lemma OnlyModeDiffers(large: seq<string>)
    requires "mode" !in large
    ensures !Weaker(DEFAULT_CHECKS, large)
  {
    var f := ManifestFile("/f", "0", "644", 0, 0);
    var fs: FileSystem := map["/f" := Node(false, File(true, FileAttrs("0", 1, 1, "755"), true))];
    assert DEFAULT_CHECKS[1] == "mode";
    assert "755"[0] != "644"[0];
    assert CheckFile(fs, f, DEFAULT_CHECKS, false) == Some(ModeMismatch);
    assert CheckFile(fs, f, large, false) == None;
  }

  // ---- which issue is reported ----

  /** What each label says of an entry whose path leads to a file with attributes `a`. */
  predicate IsFileIssue(f: ManifestFile, a: FileAttrs, readable: bool, checks: seq<string>, fast: bool, issue: Issue) {
    var modeAgrees := "mode" in checks && f.mode != "" ==> a.mode == f.mode;
    var trusted := fast && f.size != 0 && f.mtime != 0 && a.size == f.size && a.mtime == f.mtime;
    var sizeAgrees := "size" in checks && f.size != 0 ==> a.size == f.size;
    var mtimeAgrees := "mtime" in checks && f.mtime != 0 ==> a.mtime == f.mtime;
    match issue
    case ModeMismatch => !modeAgrees
    case Unreadable => modeAgrees && !trusted && !readable
    case HashMismatch => modeAgrees && !trusted && readable && a.sha256 != f.sha256
    case SizeMismatch => modeAgrees && readable && a.sha256 == f.sha256 && !sizeAgrees
    case MTimeMismatch => modeAgrees && readable && a.sha256 == f.sha256 && sizeAgrees && !mtimeAgrees
    case _ => false
  }

  lemma CheckFileIssueIff(fs: FileSystem, f: ManifestFile, checks: seq<string>, fast: bool, issue: Issue)
    requires IsCheckable(f)
    ensures CheckFile(fs, f, checks, fast) == Some(issue) <==>
            if f.path !in fs then issue == Missing
            else match fs[f.path].target
              case Denied => issue == StatFailed
              case Dir(_) => issue == IsDirectory
              case File(_, a, readable) => IsFileIssue(f, a, readable, checks, fast, issue)
  {
  }

  /**
   A recorded file passes later exactly when what is compared agrees with what was
   there when it was recorded: its content always, unless the fast mode trusts an
   unchanged size and time, its mode, size and time when they are in the check set.
   */
  lemma RecordedPassesIff(fs: FileSystem, path: string, was: FileAttrs, checks: seq<string>, fast: bool)
    requires path in fs && fs[path].target.File? && path != ""
    ensures var now := fs[path].target.attrs;
            CheckFile(fs, ToManifestFile(path, was), checks, fast).None? <==>
            && ("mode" in checks && was.mode != "" ==> now.mode == was.mode)
            && ((fast && was.size != 0 && was.mtime != 0 && now.size == was.size && now.mtime == was.mtime)
                || (fs[path].target.readable && now.sha256 == was.sha256
                    && ("size" in checks && was.size != 0 ==> now.size == was.size)
                    && ("mtime" in checks && was.mtime != 0 ==> now.mtime == was.mtime)))
  {
  }
}
