/**
 The traversal of the include graph. The state keeps, for every visited file, the
 variables it was scanned under: a second include of the same file is skipped
 whatever its variables are, so this map is what fixes the outcome.
 */
module Scan {
  import opened Wrappers
  import opened Paths
  import opened Templates
  import opened Playbooks

  datatype State = State(ctx: map<string, Vars>, files: set<string>, warnings: set<Warning>)

  const START := State(map[], {}, {})

  // ---- documents ----

  function LoadPlays(h: Host, key: string): Result<seq<Value>, Failure> {
    if key !in h.files || h.files[key].Unreadable? then Err(ReadFailed)
    else match h.files[key].doc
      case None => Err(ParseFailed)
      case Some(List(items)) => Ok(items)
      case Some(Map(m)) => Ok([Map(m)])
      case Some(_) => Err(NotAPlayList)
  }

  predicate IsPlay(m: Task) {
    "hosts" in m || "tasks" in m || "pre_tasks" in m || "post_tasks" in m || "handlers" in m || "roles" in m
  }

  predicate IsTaskFile(plays: seq<Value>) {
    plays != [] && plays[0].Map? && !IsPlay(plays[0].fields)
  }

  function PlayLeaves(play: Task, sections: seq<string>, vars: Vars): seq<Leaf> {
    if sections == [] then []
    else ListLeaves(AsItems(Field(play, sections[0])), vars) + PlayLeaves(play, sections[1..], vars)
  }

  function PlaysLeaves(h: Host, plays: seq<Value>, vars: Vars, dir: string): seq<Leaf> {
    if plays == [] then []
    else
      (if plays[0].Map? then PlayLeaves(plays[0].fields, PLAY_SECTIONS, vars + PlayVars(h, plays[0].fields, dir))
       else [])
      + PlaysLeaves(h, plays[1..], vars, dir)
  }

  function DocLeaves(h: Host, plays: seq<Value>, vars: Vars, dir: string): seq<Leaf> {
    if IsTaskFile(plays) then ListLeaves(plays, vars) else PlaysLeaves(h, plays, vars, dir)
  }

  function PlaysWarnings(h: Host, plays: seq<Value>, dir: string): set<Warning> {
    if plays == [] then {}
    else (if plays[0].Map? then PlayWarnings(h, plays[0].fields, dir) else {}) + PlaysWarnings(h, plays[1..], dir)
  }

  function DocWarnings(h: Host, plays: seq<Value>, dir: string): set<Warning> {
    if IsTaskFile(plays) then {} else PlaysWarnings(h, plays, dir)
  }

  // ---- the scan ----

  function IncludeOf(v: Value): Option<string> {
    match v
    case Text(s) => Some(s)
    case Map(m) => if Field(m, "file").Text? then Some(Field(m, "file").s) else None
    case _ => None
  }

  function FirstInclude(task: Task, keys: seq<string>): string {
    if keys == [] then ""
    else match IncludeOf(Field(task, keys[0]))
      case Some(s) => s
      case None => FirstInclude(task, keys[1..])
  }

  function IncludeFile(task: Task): string {
    FirstInclude(task, INCLUDE_KEYS)
  }

  lemma {:induction false} NoIncludes(task: Task, keys: seq<string>)
    requires forall k :: k in keys ==> k !in task
    ensures FirstInclude(task, keys) == ""
  {
    if keys != [] {
      assert keys[0] !in task;
      NoIncludes(task, keys[1..]);
    }
  }

  /** The path a leaf includes under its variables, or None when it stays dynamic. */
  function IncludeTarget(leaf: Leaf, dir: string): Option<string> {
    var inc := Substitute(IncludeFile(leaf.task), leaf.vars);
    if HasTemplate(inc) then None else Some(if IsAbs(inc) then inc else Join(dir, inc))
  }

  function ScanFile(h: Host, path: string, vars: Vars, st: State): (r: (State, Option<Failure>))
    ensures st.ctx.Keys <= r.0.ctx.Keys
    decreases h.files.Keys - st.ctx.Keys, 0, 0
  {
    var key := Abs(h.cwd, path);
    if key in st.ctx then (st, None)
    else
      var seen := st.(ctx := st.ctx[key := vars]);
      match LoadPlays(h, key)
      case Err(f) => (seen, Some(f))
      case Ok(plays) =>
        assert h.files.Keys - seen.ctx.Keys < h.files.Keys - st.ctx.Keys by {
          assert key in h.files.Keys - st.ctx.Keys;
        }
        var warned := seen.(warnings := seen.warnings + DocWarnings(h, plays, Dir(key)));
        (ScanLeaves(h, DocLeaves(h, plays, vars, Dir(key)), Dir(key), warned), None)
  }

  function ScanLeaves(h: Host, leaves: seq<Leaf>, dir: string, st: State): (r: State)
    ensures st.ctx.Keys <= r.ctx.Keys
    decreases h.files.Keys - st.ctx.Keys, 2, |leaves|
  {
    if leaves == [] then st
    else
      var next := ScanLeaf(h, leaves[0], dir, st);
      ScanLeaves(h, leaves[1..], dir, next)
  }

  function ScanLeaf(h: Host, leaf: Leaf, dir: string, st: State): (r: State)
    ensures st.ctx.Keys <= r.ctx.Keys
    decreases h.files.Keys - st.ctx.Keys, 1, 0
  {
    if IncludeFile(leaf.task) == "" then
      State(st.ctx, st.files + TaskFiles(leaf.task, leaf.vars), st.warnings + TaskWarnings(leaf.task, leaf.vars))
    else
      var name := DisplayName(leaf.task);
      match IncludeTarget(leaf, dir)
      case None =>
        st.(warnings := st.warnings + {DynamicInclude(name, Substitute(IncludeFile(leaf.task), leaf.vars))})
      case Some(path) =>
        match ScanFile(h, path, leaf.vars, st)
        case (next, None) => next
        case (next, Some(f)) => next.(warnings := next.warnings + {IncludeFailed(name, path, f)})
  }

  function ScanRoots(h: Host, roots: seq<string>, st: State): Result<State, Failure>
    decreases |roots|
  {
    if roots == [] then Ok(st)
    else match ScanFile(h, roots[0], map[], st)
      case (next, None) => ScanRoots(h, roots[1..], next)
      case (_, Some(f)) => Err(f)
  }

  // ---- what one file contributes under given variables ----

  function FileLeaves(h: Host, key: string, vars: Vars): seq<Leaf> {
    match LoadPlays(h, key)
    case Ok(plays) => DocLeaves(h, plays, vars, Dir(key))
    case Err(_) => []
  }

  function LeafFiles(leaf: Leaf): set<string> {
    if IncludeFile(leaf.task) == "" then TaskFiles(leaf.task, leaf.vars) else {}
  }

  function LeafWarnings(leaf: Leaf, dir: string): set<Warning> {
    if IncludeFile(leaf.task) == "" then TaskWarnings(leaf.task, leaf.vars)
    else if IncludeTarget(leaf, dir).None? then
      {DynamicInclude(DisplayName(leaf.task), Substitute(IncludeFile(leaf.task), leaf.vars))}
    else {}
  }

  function LeafEdges(h: Host, leaf: Leaf, dir: string): set<string> {
    if IncludeFile(leaf.task) == "" then {}
    else match IncludeTarget(leaf, dir)
      case None => {}
      case Some(path) => {Abs(h.cwd, path)}
  }

  function LeavesFiles(leaves: seq<Leaf>): set<string> {
    set l, f | l in leaves && f in LeafFiles(l) :: f
  }

  function LeavesWarnings(leaves: seq<Leaf>, dir: string): set<Warning> {
    set l, w | l in leaves && w in LeafWarnings(l, dir) :: w
  }

  function LeavesEdges(h: Host, leaves: seq<Leaf>, dir: string): set<string> {
    set l, k | l in leaves && k in LeafEdges(h, l, dir) :: k
  }

  /** The files managed by `key` when it is scanned under `vars`. */
  function FilesOf(h: Host, key: string, vars: Vars): set<string> {
    LeavesFiles(FileLeaves(h, key, vars))
  }

  /** Everything `key` must warn about when it is scanned under `vars`. */
  function WarningsOf(h: Host, key: string, vars: Vars): set<Warning> {
    LeavesWarnings(FileLeaves(h, key, vars), Dir(key))
    + match LoadPlays(h, key) { case Ok(plays) => DocWarnings(h, plays, Dir(key)) case Err(_) => {} }
  }

  /** The keys of the files `key` includes when it is scanned under `vars`. */
  function EdgesOf(h: Host, key: string, vars: Vars): set<string> {
    LeavesEdges(h, FileLeaves(h, key, vars), Dir(key))
  }

  // ---- what a stretch of scanning does ----

  ghost predicate Within(small: map<string, Vars>, large: map<string, Vars>) {
    forall k :: k in small ==> k in large && large[k] == small[k]
  }

  ghost predicate Extends(st: State, next: State) {
    && Within(st.ctx, next.ctx)
    && st.files <= next.files
    && st.warnings <= next.warnings
  }

  ghost predicate Reported(h: Host, key: string, st: State) {
    exists w :: w in st.warnings && w.IncludeFailed? && Abs(h.cwd, w.path) == key
  }

  /** Each newly visited file has been followed, recorded and warned about in full. */
  ghost predicate Finished(h: Host, key: string, st: State)
    requires key in st.ctx
  {
    && EdgesOf(h, key, st.ctx[key]) <= st.ctx.Keys
    && FilesOf(h, key, st.ctx[key]) <= st.files
    && WarningsOf(h, key, st.ctx[key]) <= st.warnings
  }

  ghost predicate NewFinished(h: Host, st: State, next: State) {
    forall k :: k in next.ctx && k !in st.ctx ==> Finished(h, k, next)
  }

  ghost predicate NewReported(h: Host, st: State, next: State, skip: set<string>) {
    forall k :: k in next.ctx && k !in st.ctx && k !in skip && LoadPlays(h, k).Err? ==> Reported(h, k, next)
  }

  /** Nothing is recorded that a newly visited file does not manage. */
  ghost predicate NewJustified(h: Host, st: State, next: State, own: set<string>) {
    forall f :: f in next.files && f !in st.files && f !in own ==>
                  exists k :: k in next.ctx && k !in st.ctx && f in FilesOf(h, k, next.ctx[k])
  }

  ghost predicate Progress(h: Host, st: State, next: State, own: set<string>, skip: set<string>) {
    && Extends(st, next)
    && NewFinished(h, st, next)
    && NewReported(h, st, next, skip)
    && NewJustified(h, st, next, own)
  }

  lemma ProgressCompose(h: Host, a: State, b: State, c: State, own1: set<string>, own2: set<string>)
    requires Progress(h, a, b, own1, {}) && Progress(h, b, c, own2, {})
    ensures Progress(h, a, c, own1 + own2, {})
  {
    forall k | k in c.ctx && k !in a.ctx
      ensures Finished(h, k, c)
      ensures LoadPlays(h, k).Err? ==> Reported(h, k, c)
    {
      if k in b.ctx {
        assert Finished(h, k, b);
        if LoadPlays(h, k).Err? { assert Reported(h, k, b); }
      } else {
        assert Finished(h, k, c);
      }
    }
    forall f | f in c.files && f !in a.files && f !in own1 + own2
      ensures exists k :: k in c.ctx && k !in a.ctx && f in FilesOf(h, k, c.ctx[k])
    {
      if f in b.files {
        var k :| k in b.ctx && k !in a.ctx && f in FilesOf(h, k, b.ctx[k]);
        assert c.ctx[k] == b.ctx[k];
      } else {
        var k :| k in c.ctx && k !in b.ctx && f in FilesOf(h, k, c.ctx[k]);
      }
    }
  }

  lemma {:induction false} ScanFileProgress(h: Host, path: string, vars: Vars, st: State)
    ensures var r := ScanFile(h, path, vars, st);
            && Progress(h, st, r.0, {}, if r.1.Some? then {Abs(h.cwd, path)} else {})
            && Abs(h.cwd, path) in r.0.ctx
    decreases h.files.Keys - st.ctx.Keys, 0, 0
  {
    var key := Abs(h.cwd, path);
    if key !in st.ctx && LoadPlays(h, key).Ok? {
      var plays := LoadPlays(h, key).value;
      var dir := Dir(key);
      var warned := st.(ctx := st.ctx[key := vars], warnings := st.warnings + DocWarnings(h, plays, dir));
      assert key in h.files.Keys - st.ctx.Keys;
      var leaves := DocLeaves(h, plays, vars, dir);
      ScanLeavesProgress(h, leaves, dir, warned);
      VisitProgress(h, key, vars, st, ScanLeaves(h, leaves, dir, warned));
    }
  }

  /** Once its leaves are scanned, a file just marked as visited counts as finished. */
  lemma VisitProgress(h: Host, key: string, vars: Vars, st: State, next: State)
    requires key !in st.ctx && LoadPlays(h, key).Ok?
    requires var own := DocWarnings(h, LoadPlays(h, key).value, Dir(key));
             Progress(h, State(st.ctx[key := vars], st.files, st.warnings + own), next, FilesOf(h, key, vars), {})
    requires FilesOf(h, key, vars) <= next.files && EdgesOf(h, key, vars) <= next.ctx.Keys
    requires LeavesWarnings(FileLeaves(h, key, vars), Dir(key)) <= next.warnings
    ensures Progress(h, st, next, {}, {}) && key in next.ctx
  {
    var marked := st.ctx[key := vars];
    assert key in marked && next.ctx[key] == vars;
    assert Finished(h, key, next);
    forall f | f in next.files && f !in st.files
      ensures exists k :: k in next.ctx && k !in st.ctx && f in FilesOf(h, k, next.ctx[k])
    {
      if f in FilesOf(h, key, vars) {
        assert f in FilesOf(h, key, next.ctx[key]);
      } else {
        var k :| k in next.ctx && k !in marked && f in FilesOf(h, k, next.ctx[k]);
      }
    }
  }

  lemma {:induction false} ScanLeavesProgress(h: Host, leaves: seq<Leaf>, dir: string, st: State)
    ensures var next := ScanLeaves(h, leaves, dir, st);
            && Progress(h, st, next, LeavesFiles(leaves), {})
            && LeavesFiles(leaves) <= next.files
            && LeavesWarnings(leaves, dir) <= next.warnings
            && LeavesEdges(h, leaves, dir) <= next.ctx.Keys
    decreases h.files.Keys - st.ctx.Keys, 2, |leaves|
  {
    if leaves != [] {
      var mid := ScanLeaf(h, leaves[0], dir, st);
      ScanLeafProgress(h, leaves[0], dir, st);
      ScanLeavesProgress(h, leaves[1..], dir, mid);
      ProgressCompose(h, st, mid, ScanLeaves(h, leaves, dir, st), LeafFiles(leaves[0]), LeavesFiles(leaves[1..]));
      assert LeavesFiles(leaves) == LeafFiles(leaves[0]) + LeavesFiles(leaves[1..]) by {
        assert forall l :: l in leaves <==> l == leaves[0] || l in leaves[1..];
      }
      assert forall l :: l in leaves <==> l == leaves[0] || l in leaves[1..];
    }
  }

  lemma {:induction false} ScanLeafProgress(h: Host, leaf: Leaf, dir: string, st: State)
    ensures var next := ScanLeaf(h, leaf, dir, st);
            && Progress(h, st, next, LeafFiles(leaf), {})
            && LeafFiles(leaf) <= next.files
            && LeafWarnings(leaf, dir) <= next.warnings
            && LeafEdges(h, leaf, dir) <= next.ctx.Keys
    decreases h.files.Keys - st.ctx.Keys, 1, 0
  {
    if IncludeFile(leaf.task) != "" && IncludeTarget(leaf, dir).Some? {
      var path := IncludeTarget(leaf, dir).value;
      ScanFileProgress(h, path, leaf.vars, st);
      var r := ScanFile(h, path, leaf.vars, st);
      var next := ScanLeaf(h, leaf, dir, st);
      forall k | k in next.ctx && k !in st.ctx
        ensures Finished(h, k, next)
        ensures LoadPlays(h, k).Err? ==> Reported(h, k, next)
      {
        assert Finished(h, k, r.0);
        if LoadPlays(h, k).Err? {
          if k == Abs(h.cwd, path) && r.1.Some? {
            assert IncludeFailed(DisplayName(leaf.task), path, r.1.value) in next.warnings;
          } else {
            assert Reported(h, k, r.0);
          }
        }
      }
    }
  }
}
