/** What a scan returns: the exact closure of the include graph it walked. */
module ScanTheorems {
  import opened Wrappers
  import opened Text
  import opened Paths
  import opened Templates
  import opened Playbooks
  import opened Scan
  import opened ScanOrigins

  // ---- the visited files are the least closed set ----

  /** `s` holds every file that a visited member of `s` includes. */
  ghost predicate ClosedUnder(h: Host, ctx: map<string, Vars>, s: set<string>) {
    forall k :: k in s && k in ctx ==> EdgesOf(h, k, ctx[k]) <= s
  }

  lemma {:induction false} ScanFileStays(h: Host, path: string, vars: Vars, st: State, ctx: map<string, Vars>,
                                         s: set<string>)
    requires Within(ScanFile(h, path, vars, st).0.ctx, ctx) && ClosedUnder(h, ctx, s)
    requires Abs(h.cwd, path) in s && st.ctx.Keys <= s
    ensures ScanFile(h, path, vars, st).0.ctx.Keys <= s
    decreases h.files.Keys - st.ctx.Keys, 0, 0
  {
    var key := Abs(h.cwd, path);
    if key !in st.ctx && LoadPlays(h, key).Ok? {
      assert key in h.files.Keys - st.ctx.Keys;
      var plays := LoadPlays(h, key).value;
      var warned := st.(ctx := st.ctx[key := vars], warnings := st.warnings + DocWarnings(h, plays, Dir(key)));
      var leaves := DocLeaves(h, plays, vars, Dir(key));
      ScanLeavesProgress(h, leaves, Dir(key), warned);
      assert ctx[key] == vars;
      assert EdgesOf(h, key, vars) == LeavesEdges(h, leaves, Dir(key));
      ScanLeavesStay(h, leaves, Dir(key), warned, ctx, s);
    }
  }

  lemma {:induction false} ScanLeavesStay(h: Host, leaves: seq<Leaf>, dir: string, st: State, ctx: map<string, Vars>,
                                          s: set<string>)
    requires Within(ScanLeaves(h, leaves, dir, st).ctx, ctx) && ClosedUnder(h, ctx, s)
    requires LeavesEdges(h, leaves, dir) <= s && st.ctx.Keys <= s
    ensures ScanLeaves(h, leaves, dir, st).ctx.Keys <= s
    decreases h.files.Keys - st.ctx.Keys, 2, |leaves|
  {
    if leaves != [] {
      var leaf := leaves[0];
      var mid := ScanLeaf(h, leaf, dir, st);
      ScanLeavesProgress(h, leaves[1..], dir, mid);
      assert LeafEdges(h, leaf, dir) <= s by {
        assert leaf in leaves;
      }
      if IncludeFile(leaf.task) != "" && IncludeTarget(leaf, dir).Some? {
        assert Abs(h.cwd, IncludeTarget(leaf, dir).value) in LeafEdges(h, leaf, dir);
        ScanFileStays(h, IncludeTarget(leaf, dir).value, leaf.vars, st, ctx, s);
      }
      ScanLeavesStay(h, leaves[1..], dir, mid, ctx, s);
    }
  }

  lemma {:induction false} ScanRootsProgress(h: Host, roots: seq<string>, st: State)
    requires ScanRoots(h, roots, st).Ok?
    ensures Progress(h, st, ScanRoots(h, roots, st).value, {}, {})
    ensures forall r :: r in roots ==> Abs(h.cwd, r) in ScanRoots(h, roots, st).value.ctx
    decreases |roots|
  {
    if roots != [] {
      ScanFileProgress(h, roots[0], map[], st);
      var mid := ScanFile(h, roots[0], map[], st).0;
      ScanRootsProgress(h, roots[1..], mid);
      ProgressCompose(h, st, mid, ScanRoots(h, roots, st).value, {}, {});
      var none: set<string> := {};
      assert none + none == none;
    }
  }

  lemma {:induction false} ScanRootsStay(h: Host, roots: seq<string>, st: State, ctx: map<string, Vars>, s: set<string>)
    requires ScanRoots(h, roots, st).Ok? && Within(ScanRoots(h, roots, st).value.ctx, ctx) && ClosedUnder(h, ctx, s)
    requires (forall r :: r in roots ==> Abs(h.cwd, r) in s) && st.ctx.Keys <= s
    ensures ScanRoots(h, roots, st).value.ctx.Keys <= s
    decreases |roots|
  {
    if roots != [] {
      var mid := ScanFile(h, roots[0], map[], st).0;
      ScanRootsProgress(h, roots[1..], mid);
      ScanFileStays(h, roots[0], map[], st, ctx, s);
      ScanRootsStay(h, roots[1..], mid, ctx, s);
    }
  }

  function AllFiles(h: Host, ctx: map<string, Vars>): set<string> {
    set k, f | k in ctx && f in FilesOf(h, k, ctx[k]) :: f
  }

  /**
   For every file graph, cyclic or not, and all variables: the visited files are
   the least set that holds the roots and what its members include, and the
   managed files are exactly those of the visited ones. Each is taken under the
   variables of its first visit: none for a root, else those in force at an include
   in a visited file, along a chain of includes from a root.
   */
  lemma ScanIsExact(h: Host, roots: seq<string>)
    requires ScanRoots(h, roots, START).Ok?
    ensures var st := ScanRoots(h, roots, START).value;
            && (forall r :: r in roots ==> Abs(h.cwd, r) in st.ctx)
            && ClosedUnder(h, st.ctx, st.ctx.Keys)
            && (forall s :: ClosedUnder(h, st.ctx, s) && (forall r :: r in roots ==> Abs(h.cwd, r) in s) ==>
                              st.ctx.Keys <= s)
            && st.files == AllFiles(h, st.ctx)
            && (forall k :: k in st.ctx ==> IsDerived(h, roots, st.ctx, k))
  {
    var st := ScanRoots(h, roots, START).value;
    ScanIsSound(h, roots);
    ScanRootsProgress(h, roots, START);
    forall k | k in st.ctx
      ensures Finished(h, k, st)
    {
    }
    forall s | ClosedUnder(h, st.ctx, s) && forall r :: r in roots ==> Abs(h.cwd, r) in s
      ensures st.ctx.Keys <= s
    {
      ScanRootsStay(h, roots, START, st.ctx, s);
    }
  }

  /**
   Nothing a scanned task names is lost: each path reference of each visited
   file, each dynamic include, each unusable vars file and each include that
   could not be loaded ends up in the files or in the warnings.
   */
  lemma ScanDropsNothing(h: Host, roots: seq<string>)
    requires ScanRoots(h, roots, START).Ok?
    ensures var st := ScanRoots(h, roots, START).value;
            forall k :: k in st.ctx ==>
                          && WarningsOf(h, k, st.ctx[k]) <= st.warnings
                          && (LoadPlays(h, k).Err? ==> Reported(h, k, st))
                          && (forall l, r ::
                            l in FileLeaves(h, k, st.ctx[k]) && IncludeFile(l.task) == "" && r in TaskRefs(l.task) ==>
                              RefHandled(l, r, st))
  {
    var st := ScanRoots(h, roots, START).value;
    ScanRootsProgress(h, roots, START);
    forall k | k in st.ctx
      ensures Finished(h, k, st)
    {
    }
    forall k, l, r | k in st.ctx && l in FileLeaves(h, k, st.ctx[k]) && IncludeFile(l.task) == ""
        && r in TaskRefs(l.task)
      ensures RefHandled(l, r, st)
    {
      assert Finished(h, k, st);
      RefNeverDropped(DisplayName(l.task), r, l.vars, LoopItems(l.task));
      assert RefFiles(r, l.vars, LoopItems(l.task)) <= LeafFiles(l);
      assert RefWarnings(DisplayName(l.task), r, l.vars, LoopItems(l.task)) <= LeafWarnings(l, Dir(k));
      assert LeafFiles(l) <= FilesOf(h, k, st.ctx[k]);
      assert LeafWarnings(l, Dir(k)) <= WarningsOf(h, k, st.ctx[k]);
    }
  }

  ghost predicate RefHandled(l: Leaf, r: Ref, st: State) {
    var files := RefFiles(r, l.vars, LoopItems(l.task));
    var warnings := RefWarnings(DisplayName(l.task), r, l.vars, LoopItems(l.task));
    (files != {} && files <= st.files) || (warnings != {} && warnings <= st.warnings)
  }

  /** A path reference yields files or a warning, and never both. */
  lemma RefNeverDropped(name: string, r: Ref, vars: Vars, loop: seq<string>)
    ensures RefFiles(r, vars, loop) == {} <==> RefWarnings(name, r, vars, loop) != {}
  {
    var paths := ExpandPath(r.raw, vars, loop);
    if paths == [""] {
      assert "" in paths;
      assert RefPaths(r, vars, loop) == {};
      assert RefWarnings(name, r, vars, loop) != {};
    } else {
      assert paths[0] in paths && IsPlainPath(paths[0]);
      assert paths[0] in RefPaths(r, vars, loop);
      if !IsRecordable(r) {
        assert GetUrlDirectory(name, paths[0]) in RefWarnings(name, r, vars, loop);
      }
    }
  }

  lemma FilesOfPlain(h: Host, key: string, vars: Vars)
    ensures forall f :: f in FilesOf(h, key, vars) ==> IsPlainPath(f)
  {
    forall l, f | l in FileLeaves(h, key, vars) && f in LeafFiles(l)
      ensures IsPlainPath(f)
    {
      var r :| r in TaskRefs(l.task) && f in RefFiles(r, l.vars, LoopItems(l.task));
      assert f in ExpandPath(r.raw, l.vars, LoopItems(l.task));
    }
  }

  /** Every path returned is absolute and has no template left in it. */
  lemma ScannedFilesPlain(h: Host, roots: seq<string>)
    requires ScanRoots(h, roots, START).Ok?
    ensures forall f :: f in ScanRoots(h, roots, START).value.files ==> IsAbs(f) && !HasTemplate(f)
  {
    var st := ScanRoots(h, roots, START).value;
    ScanIsExact(h, roots);
    forall k | k in st.ctx
      ensures forall f :: f in FilesOf(h, k, st.ctx[k]) ==> IsPlainPath(f)
    {
      FilesOfPlain(h, k, st.ctx[k]);
    }
  }

  // ---- roots that load ----

  /** Root `i` is the first thing to reach its file, and the file does not load. */
  ghost predicate FailsAt(h: Host, roots: seq<string>, st: State, i: nat) {
    && i < |roots|
    && ScanRoots(h, roots[..i], st).Ok?
    && Abs(h.cwd, roots[i]) !in ScanRoots(h, roots[..i], st).value.ctx
    && LoadPlays(h, Abs(h.cwd, roots[i])).Err?
  }

  lemma FailsLater(h: Host, roots: seq<string>, st: State, i: nat)
    requires roots != [] && ScanFile(h, roots[0], map[], st).1.None?
    ensures FailsAt(h, roots, st, i + 1) <==> FailsAt(h, roots[1..], ScanFile(h, roots[0], map[], st).0, i)
  {
    if i < |roots[1..]| {
      assert roots[..i + 1][1..] == roots[1..][..i] && roots[..i + 1][0] == roots[0];
    }
  }

  /**
   The scan fails exactly at a root that does not load and was not reached before it:
   an unreadable root that an earlier one includes is only warned about.
   */
  lemma {:induction false} ScanFailsIff(h: Host, roots: seq<string>, st: State)
    ensures ScanRoots(h, roots, st).Err? <==> exists i: nat :: FailsAt(h, roots, st, i)
    decreases |roots|
  {
    if roots != [] {
      var mid := ScanFile(h, roots[0], map[], st);
      assert roots[..0] == [];
      if mid.1.Some? {
        assert FailsAt(h, roots, st, 0);
      } else {
        ScanFailsIff(h, roots[1..], mid.0);
        if i: nat :| FailsAt(h, roots, st, i) {
          assert i > 0;
          FailsLater(h, roots, st, i - 1);
        }
        if i: nat :| FailsAt(h, roots[1..], mid.0, i) {
          FailsLater(h, roots, st, i);
          assert FailsAt(h, roots, st, i + 1);
        }
      }
    }
  }

  lemma LoadableRootsScan(h: Host, roots: seq<string>)
    requires forall r :: r in roots ==> LoadPlays(h, Abs(h.cwd, r)).Ok?
    ensures ScanRoots(h, roots, START).Ok?
  {
    ScanFailsIff(h, roots, START);
  }

  // ---- playbooks without templates ----

  ghost predicate SameTasks(a: seq<Leaf>, b: seq<Leaf>) {
    |a| == |b| && forall i :: 0 <= i < |a| ==> a[i].task == b[i].task
  }

  lemma SameTasksAppend(a: seq<Leaf>, b: seq<Leaf>, c: seq<Leaf>, d: seq<Leaf>)
    requires SameTasks(a, b) && SameTasks(c, d)
    ensures SameTasks(a + c, b + d)
  {
  }

  lemma {:induction false} ListLeavesTasks(items: seq<Value>, v1: Vars, v2: Vars)
    ensures SameTasks(ListLeaves(items, v1), ListLeaves(items, v2))
    decreases items, 1
  {
    if items != [] {
      ItemLeavesTasks(items[0], v1, v2);
      ListLeavesTasks(items[1..], v1, v2);
      SameTasksAppend(ItemLeaves(items[0], v1), ItemLeaves(items[0], v2), ListLeaves(items[1..], v1),
                      ListLeaves(items[1..], v2));
    }
  }

  lemma {:induction false} ItemLeavesTasks(item: Value, v1: Vars, v2: Vars)
    ensures SameTasks(ItemLeaves(item, v1), ItemLeaves(item, v2))
    decreases item
  {
    if item.Map? && IsBlock(item.fields) {
      var w1, w2 := v1 + TaskVars(item.fields), v2 + TaskVars(item.fields);
      SectionLeavesTasks(item, "block", w1, w2);
      SectionLeavesTasks(item, "rescue", w1, w2);
      SectionLeavesTasks(item, "always", w1, w2);
    }
  }

  lemma {:induction false} SectionLeavesTasks(item: Value, section: string, v1: Vars, v2: Vars)
    requires item.Map?
    ensures SameTasks(SectionLeaves(item, section, v1), SectionLeaves(item, section, v2))
    decreases item, 0
  {
    if section in item.fields && item.fields[section].List? {
      ListLeavesTasks(item.fields[section].items, v1, v2);
    }
  }

  lemma {:induction false} PlayLeavesTasks(play: Task, sections: seq<string>, v1: Vars, v2: Vars)
    ensures SameTasks(PlayLeaves(play, sections, v1), PlayLeaves(play, sections, v2))
    decreases |sections|
  {
    if sections != [] {
      var items := AsItems(Field(play, sections[0]));
      ListLeavesTasks(items, v1, v2);
      PlayLeavesTasks(play, sections[1..], v1, v2);
      SameTasksAppend(ListLeaves(items, v1), ListLeaves(items, v2), PlayLeaves(play, sections[1..], v1),
                      PlayLeaves(play, sections[1..], v2));
    }
  }

  lemma {:induction false} PlaysLeavesTasks(h: Host, plays: seq<Value>, v1: Vars, v2: Vars, dir: string)
    ensures SameTasks(PlaysLeaves(h, plays, v1, dir), PlaysLeaves(h, plays, v2, dir))
    decreases |plays|
  {
    if plays != [] {
      var rest1, rest2 := PlaysLeaves(h, plays[1..], v1, dir), PlaysLeaves(h, plays[1..], v2, dir);
      PlaysLeavesTasks(h, plays[1..], v1, v2, dir);
      if plays[0].Map? {
        var play, own := plays[0].fields, PlayVars(h, plays[0].fields, dir);
        PlayLeavesTasks(play, PLAY_SECTIONS, v1 + own, v2 + own);
        SameTasksAppend(PlayLeaves(play, PLAY_SECTIONS, v1 + own), PlayLeaves(play, PLAY_SECTIONS, v2 + own),
                        rest1, rest2);
      } else {
        SameTasksAppend([], [], rest1, rest2);
      }
    }
  }

  /** The leaf tasks of a file do not depend on the variables; only their paths do. */
  lemma FileLeavesTasks(h: Host, key: string, v1: Vars, v2: Vars)
    ensures SameTasks(FileLeaves(h, key, v1), FileLeaves(h, key, v2))
  {
    match LoadPlays(h, key)
    case Err(_) =>
    case Ok(plays) =>
      if IsTaskFile(plays) {
        ListLeavesTasks(plays, v1, v2);
      } else {
        PlaysLeavesTasks(h, plays, v1, v2, Dir(key));
      }
  }

  function FileTasks(h: Host, key: string): set<Task> {
    set l | l in FileLeaves(h, key, map[]) :: l.task
  }

  lemma FileTasksFixed(h: Host, key: string, vars: Vars)
    ensures FileTasks(h, key) == set l | l in FileLeaves(h, key, vars) :: l.task
  {
    var a, b := FileLeaves(h, key, map[]), FileLeaves(h, key, vars);
    FileLeavesTasks(h, key, map[], vars);
    forall t | t in FileTasks(h, key)
      ensures exists l :: l in b && l.task == t
    {
      var i :| 0 <= i < |a| && a[i].task == t;
      assert b[i] in b;
    }
    forall l | l in b
      ensures l.task in FileTasks(h, key)
    {
      var i :| 0 <= i < |b| && b[i] == l;
      assert a[i] in a;
    }
  }

  /** The files `task` includes by a template-free path. */
  function StaticTaskEdges(h: Host, task: Task, dir: string): set<string> {
    var inc := IncludeFile(task);
    if inc == "" || HasTemplate(inc) then {} else {Abs(h.cwd, if IsAbs(inc) then inc else Join(dir, inc))}
  }

  /** The absolute template-free paths `task` manages. */
  function StaticTaskFiles(task: Task): set<string> {
    if IncludeFile(task) != "" then {}
    else set r | r in TaskRefs(task) && IsRecordable(r) && IsPlainPath(r.raw) :: r.raw
  }

  function StaticEdges(h: Host, key: string): set<string> {
    set t, e | t in FileTasks(h, key) && e in StaticTaskEdges(h, t, Dir(key)) :: e
  }

  function StaticFiles(h: Host, key: string): set<string> {
    set t, f | t in FileTasks(h, key) && f in StaticTaskFiles(t) :: f
  }

  ghost predicate IncludesTemplateFree(h: Host, keys: set<string>) {
    forall k, t :: k in keys && t in FileTasks(h, k) ==> !HasTemplate(IncludeFile(t))
  }

  ghost predicate PathsTemplateFree(h: Host, keys: set<string>) {
    forall k, t, r :: k in keys && t in FileTasks(h, k) && r in TaskRefs(t) ==> !HasTemplate(r.raw)
  }

  lemma ItemSpan(rest: string)
    ensures SpanLen(ITEM + rest) == Some(10)
  {
    assert ITEM[2..][1..][1..][1..][1..][1..][1..] == "}}";
    assert SpanLen(ITEM) == Some(10);
    assert ITEM[..10] == ITEM;
    SpanLenLocal(ITEM, rest);
  }

  lemma {:induction false} ItemIsTemplate(s: string)
    requires Contains(s, ITEM)
    ensures HasTemplate(s)
    decreases |s|
  {
    if HasPrefix(s, ITEM) {
      ItemSpan(s[10..]);
      assert s == ITEM + s[10..];
    } else {
      ItemIsTemplate(s[1..]);
    }
  }

  lemma PlainPathExpands(raw: string, vars: Vars, loop: seq<string>)
    requires !HasTemplate(raw)
    ensures ExpandPath(raw, vars, loop) == if IsAbs(raw) then [raw] else [""]
  {
    SubstituteTemplateFree(raw, vars);
    if Contains(raw, ITEM) {
      ItemIsTemplate(raw);
    }
    var paths := [raw];
    assert raw in paths && forall p :: p in paths ==> p == raw;
    assert (forall p :: p in paths ==> IsPlainPath(p)) <==> IsPlainPath(raw);
  }

  /** Template-free includes are followed whatever the variables; nothing else is when there are no others. */
  lemma EdgesAreStatic(h: Host, key: string, vars: Vars)
    ensures StaticEdges(h, key) <= EdgesOf(h, key, vars)
    ensures IncludesTemplateFree(h, {key}) ==> StaticEdges(h, key) == EdgesOf(h, key, vars)
  {
    FileTasksFixed(h, key, vars);
    forall l | l in FileLeaves(h, key, vars)
      ensures StaticTaskEdges(h, l.task, Dir(key)) <= LeafEdges(h, l, Dir(key))
      ensures !HasTemplate(IncludeFile(l.task)) ==> StaticTaskEdges(h, l.task, Dir(key)) == LeafEdges(h, l, Dir(key))
    {
      if !HasTemplate(IncludeFile(l.task)) {
        SubstituteTemplateFree(IncludeFile(l.task), l.vars);
      }
    }
    forall e | e in StaticEdges(h, key)
      ensures e in EdgesOf(h, key, vars)
    {
      var t :| t in FileTasks(h, key) && e in StaticTaskEdges(h, t, Dir(key));
      var l :| l in FileLeaves(h, key, vars) && l.task == t;
    }
  }

  lemma FilesAreStatic(h: Host, key: string, vars: Vars)
    ensures StaticFiles(h, key) <= FilesOf(h, key, vars)
    ensures PathsTemplateFree(h, {key}) ==> StaticFiles(h, key) == FilesOf(h, key, vars)
  {
    FileTasksFixed(h, key, vars);
    forall l | l in FileLeaves(h, key, vars)
      ensures StaticTaskFiles(l.task) <= LeafFiles(l)
      ensures (forall r :: r in TaskRefs(l.task) ==> !HasTemplate(r.raw)) ==> StaticTaskFiles(l.task) == LeafFiles(l)
    {
      LeafFilesStatic(l);
    }
    forall f | f in StaticFiles(h, key)
      ensures f in FilesOf(h, key, vars)
    {
      var t :| t in FileTasks(h, key) && f in StaticTaskFiles(t);
      var l :| l in FileLeaves(h, key, vars) && l.task == t;
    }
  }

  lemma LeafFilesStatic(l: Leaf)
    ensures StaticTaskFiles(l.task) <= LeafFiles(l)
    ensures (forall r :: r in TaskRefs(l.task) ==> !HasTemplate(r.raw)) ==> StaticTaskFiles(l.task) == LeafFiles(l)
  {
    var loop := LoopItems(l.task);
    forall r | r in TaskRefs(l.task) && !HasTemplate(r.raw)
      ensures RefPaths(r, l.vars, loop) == if IsAbs(r.raw) then {r.raw} else {}
    {
      PlainPathExpands(r.raw, l.vars, loop);
      var paths := ExpandPath(r.raw, l.vars, loop);
      assert forall p :: p in paths <==> p == paths[0];
    }
    if IncludeFile(l.task) == "" {
      forall f | f in StaticTaskFiles(l.task)
        ensures f in LeafFiles(l)
      {
        var r :| r in TaskRefs(l.task) && IsRecordable(r) && IsPlainPath(r.raw) && r.raw == f;
        assert f in RefPaths(r, l.vars, loop);
        assert f in RefFiles(r, l.vars, loop);
      }
    }
  }

  ghost predicate StaticallyClosed(h: Host, s: set<string>) {
    forall k :: k in s ==> StaticEdges(h, k) <= s
  }

  function AllStaticFiles(h: Host, keys: set<string>): set<string> {
    set k, f | k in keys && f in StaticFiles(h, k) :: f
  }

  /**
   Whatever templates there are, no template-free include and no template-free path
   of a visited file is missed. With no templated include in a visited file the scan
   visits exactly the least closed set, and with no templated path in one it returns
   exactly the union of their managed paths; other files do not matter.
   */
  lemma ScanIsStaticClosure(h: Host, roots: seq<string>)
    requires ScanRoots(h, roots, START).Ok?
    ensures var st := ScanRoots(h, roots, START).value;
            && (forall r :: r in roots ==> Abs(h.cwd, r) in st.ctx)
            && StaticallyClosed(h, st.ctx.Keys)
            && AllStaticFiles(h, st.ctx.Keys) <= st.files
            && (IncludesTemplateFree(h, st.ctx.Keys) ==>
                  forall s :: StaticallyClosed(h, s) && (forall r :: r in roots ==> Abs(h.cwd, r) in s) ==>
                                st.ctx.Keys <= s)
            && (PathsTemplateFree(h, st.ctx.Keys) ==> st.files == AllStaticFiles(h, st.ctx.Keys))
  {
    ScanIsExact(h, roots);
    var st := ScanRoots(h, roots, START).value;
    forall k | k in st.ctx
      ensures StaticEdges(h, k) <= EdgesOf(h, k, st.ctx[k]) && StaticFiles(h, k) <= FilesOf(h, k, st.ctx[k])
      ensures IncludesTemplateFree(h, st.ctx.Keys) ==> StaticEdges(h, k) == EdgesOf(h, k, st.ctx[k])
      ensures PathsTemplateFree(h, st.ctx.Keys) ==> StaticFiles(h, k) == FilesOf(h, k, st.ctx[k])
    {
      EdgesAreStatic(h, k, st.ctx[k]);
      FilesAreStatic(h, k, st.ctx[k]);
    }
    if IncludesTemplateFree(h, st.ctx.Keys) {
      forall s | StaticallyClosed(h, s) && forall r :: r in roots ==> Abs(h.cwd, r) in s
        ensures st.ctx.Keys <= s
      {
        assert ClosedUnder(h, st.ctx, s);
      }
    }
  }
}
