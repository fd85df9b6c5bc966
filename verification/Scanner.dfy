/**
 The scanner as it runs: one object whose visited set and output lists grow while
 it walks nested tasks. Every method is proved against the fold in module Scan.
 Loops over a mapping take its keys in any order.
 */
module Scanner {
  import opened Wrappers
  import opened Text
  import opened Paths
  import opened Templates
  import opened Playbooks
  import opened Sequences
  import S = Scan

  // ---- the flat fold over nested task lists ----

  lemma {:induction false} ScanLeavesAppend(h: Host, a: seq<Leaf>, b: seq<Leaf>, dir: string, st: S.State)
    ensures S.ScanLeaves(h, a + b, dir, st) == S.ScanLeaves(h, b, dir, S.ScanLeaves(h, a, dir, st))
    decreases |a|
  {
    if a == [] {
      assert a + b == b;
    } else {
      assert (a + b)[1..] == a[1..] + b;
      ScanLeavesAppend(h, a[1..], b, dir, S.ScanLeaf(h, a[0], dir, st));
    }
  }

  function Warn(st: S.State, w: set<Warning>): S.State {
    st.(warnings := st.warnings + w)
  }

  function Add(st: S.State, files: set<string>, warnings: set<Warning>): S.State {
    S.State(st.ctx, st.files + files, st.warnings + warnings)
  }

  /** What recording the references `refs` and the warnings `w` adds to the state. */
  function Note(st: S.State, name: string, refs: set<Ref>, w: set<Warning>, vars: Vars, loop: seq<string>): S.State {
    Add(st, RefsFiles(refs, vars, loop), RefsWarnings(name, refs, vars, loop) + w)
  }

  lemma NoteTwice(st: S.State, name: string, a: set<Ref>, w: set<Warning>, b: set<Ref>, u: set<Warning>, vars: Vars,
                  loop: seq<string>)
    ensures Note(Note(st, name, a, w, vars, loop), name, b, u, vars, loop) == Note(st, name, a + b, w + u, vars, loop)
  {
    RefsUnion(name, a, b, vars, loop);
  }

  lemma NoteOne(st: S.State, name: string, r: Ref, vars: Vars, loop: seq<string>)
    ensures Note(st, name, {r}, {}, vars, loop) == Add(st, RefFiles(r, vars, loop), RefWarnings(name, r, vars, loop))
  {
    RefsOfOne(name, r, vars, loop);
  }

  lemma NoteNothing(st: S.State, name: string, w: set<Warning>, vars: Vars, loop: seq<string>)
    ensures Note(st, name, {}, w, vars, loop) == Warn(st, w)
  {
    assert RefsFiles({}, vars, loop) == {} && RefsWarnings(name, {}, vars, loop) == {};
  }

  /** Warnings already issued never influence a scan. */
  lemma {:induction false} ScanFileWarn(h: Host, path: string, vars: Vars, st: S.State, w: set<Warning>)
    ensures S.ScanFile(h, path, vars, Warn(st, w)).0 == Warn(S.ScanFile(h, path, vars, st).0, w)
    ensures S.ScanFile(h, path, vars, Warn(st, w)).1 == S.ScanFile(h, path, vars, st).1
    decreases h.files.Keys - st.ctx.Keys, 0, 0
  {
    var key := Abs(h.cwd, path);
    if key !in st.ctx && S.LoadPlays(h, key).Ok? {
      var plays := S.LoadPlays(h, key).value;
      var own := S.DocWarnings(h, plays, Dir(key));
      var warned := Warn(st.(ctx := st.ctx[key := vars]), own);
      assert key in h.files.Keys - st.ctx.Keys;
      ScanLeavesWarn(h, S.DocLeaves(h, plays, vars, Dir(key)), Dir(key), warned, w);
      assert st.warnings + w + own == st.warnings + own + w;
    }
  }

  lemma {:induction false} ScanLeavesWarn(h: Host, leaves: seq<Leaf>, dir: string, st: S.State, w: set<Warning>)
    ensures S.ScanLeaves(h, leaves, dir, Warn(st, w)) == Warn(S.ScanLeaves(h, leaves, dir, st), w)
    decreases h.files.Keys - st.ctx.Keys, 2, |leaves|
  {
    if leaves != [] {
      var leaf := leaves[0];
      var mid := S.ScanLeaf(h, leaf, dir, st);
      assert S.ScanLeaf(h, leaf, dir, Warn(st, w)) == Warn(mid, w) by {
        if S.IncludeFile(leaf.task) == "" {
          assert st.warnings + w + TaskWarnings(leaf.task, leaf.vars) == mid.warnings + w;
        } else if S.IncludeTarget(leaf, dir).Some? {
          var path := S.IncludeTarget(leaf, dir).value;
          ScanFileWarn(h, path, leaf.vars, st, w);
          var r := S.ScanFile(h, path, leaf.vars, st);
          if r.1.Some? {
            var failed := {IncludeFailed(DisplayName(leaf.task), path, r.1.value)};
            assert r.0.warnings + w + failed == r.0.warnings + failed + w;
          }
        } else {
          var dynamic := {DynamicInclude(DisplayName(leaf.task), Substitute(S.IncludeFile(leaf.task), leaf.vars))};
          assert st.warnings + w + dynamic == st.warnings + dynamic + w;
        }
      }
      ScanLeavesWarn(h, leaves[1..], dir, mid, w);
    }
  }

  // ---- variables and paths ----

  method MergeVars(base: Vars, over: Vars) returns (out: Vars)
    ensures out == base + over
  {
    out := map[];
    var keys := base.Keys;
    while keys != {}
      invariant keys <= base.Keys && out == base - keys
    {
      var k :| k in keys;
      out := out[k := base[k]];
      keys := keys - {k};
    }
    keys := over.Keys;
    while keys != {}
      invariant keys <= over.Keys && out == base + (over - keys)
    {
      var k :| k in keys;
      out := out[k := over[k]];
      keys := keys - {k};
    }
    assert over - {} == over;
  }

  /** Copies the scalar entries of `m` over `into`. */
  method CopyScalars(into: Vars, m: Task) returns (out: Vars)
    ensures out == into + ScalarEntries(m)
  {
    out := into;
    var keys := m.Keys;
    while keys != {}
      invariant keys <= m.Keys && out == into + (ScalarEntries(m) - keys)
    {
      var k :| k in keys;
      if ScalarText(m[k]).Some? {
        out := out[k := ScalarText(m[k]).value];
      }
      keys := keys - {k};
    }
    assert ScalarEntries(m) - {} == ScalarEntries(m);
  }

  lemma ExpandWhole(raw: string, vars: Vars, loop: seq<string>)
    requires !Contains(Substitute(raw, vars), ITEM)
    ensures var sub := Substitute(raw, vars); ExpandPath(raw, vars, loop) == if IsPlainPath(sub) then [sub] else [""]
  {
    var single := [Substitute(raw, vars)];
    assert single[0] in single && forall p :: p in single ==> p == single[0];
  }

  lemma ExpandStuck(raw: string, vars: Vars, loop: seq<string>, i: nat)
    requires Contains(Substitute(raw, vars), ITEM) && i < |loop|
    requires !IsPlainPath(ReplaceAll(Substitute(raw, vars), ITEM, loop[i]))
    ensures ExpandPath(raw, vars, loop) == [""]
  {
    var paths := ExpandItems(Substitute(raw, vars), loop);
    assert paths[i] in paths;
  }

  method Expand(raw: string, vars: Vars, loop: seq<string>) returns (paths: seq<string>)
    ensures paths == ExpandPath(raw, vars, loop)
  {
    var sub := Substitute(raw, vars);
    if !Contains(sub, ITEM) {
      ExpandWhole(raw, vars, loop);
      if HasTemplate(sub) || !IsAbs(sub) {
        return [""];
      }
      return [sub];
    }
    if |loop| == 0 {
      return [""];
    }
    paths := [];
    ghost var all := ExpandItems(sub, loop);
    for i := 0 to |loop|
      invariant paths == all[..i]
      invariant forall k :: 0 <= k < i ==> IsPlainPath(all[k])
    {
      var p := ReplaceAll(sub, ITEM, loop[i]);
      if HasTemplate(p) || !IsAbs(p) {
        ExpandStuck(raw, vars, loop, i);
        return [""];
      }
      paths := paths + [p];
    }
    assert paths == all;
  }

  /** What one expanded path adds to the recorded files and to the warnings. */
  function PathFiles(r: Ref, path: string): set<string> {
    if path != "" && IsRecordable(r) then {path} else {}
  }

  function PathWarnings(name: string, r: Ref, path: string): set<Warning> {
    if path == "" then
      {match r
       case ModulePath(mod, arg, raw) => Unresolved(name, mod, arg, raw)
       case CreatesPath(raw) => CreatesUnresolved(name, raw)}
    else if IsRecordable(r) then {}
    else {GetUrlDirectory(name, path)}
  }

  function PathsFiles(r: Ref, paths: seq<string>): set<string> {
    set p, f | p in paths && f in PathFiles(r, p) :: f
  }

  function PathsWarnings(name: string, r: Ref, paths: seq<string>): set<Warning> {
    set p, w | p in paths && w in PathWarnings(name, r, p) :: w
  }

  ghost function NotePaths(st: S.State, name: string, r: Ref, paths: seq<string>): S.State
    decreases |paths|
  {
    if paths == [] then st
    else NotePaths(Add(st, PathFiles(r, paths[0]), PathWarnings(name, r, paths[0])), name, r, paths[1..])
  }

  lemma {:induction false} NotePathsAdds(st: S.State, name: string, r: Ref, paths: seq<string>)
    ensures NotePaths(st, name, r, paths) == Add(st, PathsFiles(r, paths), PathsWarnings(name, r, paths))
    decreases |paths|
  {
    if paths != [] {
      NotePathsAdds(Add(st, PathFiles(r, paths[0]), PathWarnings(name, r, paths[0])), name, r, paths[1..]);
      PathsStep(name, r, paths);
    }
  }

  lemma PathsStep(name: string, r: Ref, paths: seq<string>)
    requires paths != []
    ensures PathsFiles(r, paths) == PathFiles(r, paths[0]) + PathsFiles(r, paths[1..])
    ensures PathsWarnings(name, r, paths) == PathWarnings(name, r, paths[0]) + PathsWarnings(name, r, paths[1..])
  {
    assert forall p :: p in paths <==> p == paths[0] || p in paths[1..];
  }

  lemma PathsOfRef(name: string, r: Ref, vars: Vars, loop: seq<string>)
    ensures PathsFiles(r, ExpandPath(r.raw, vars, loop)) == RefFiles(r, vars, loop)
    ensures PathsWarnings(name, r, ExpandPath(r.raw, vars, loop)) == RefWarnings(name, r, vars, loop)
  {
    var paths := ExpandPath(r.raw, vars, loop);
    var files, warnings := PathsFiles(r, paths), PathsWarnings(name, r, paths);
    if paths == [""] {
      assert paths[0] in paths && paths[0] == "" && forall p :: p in paths ==> p == "";
      assert forall w :: w in PathWarnings(name, r, "") ==> w in warnings;
      assert warnings == PathWarnings(name, r, "");
    } else {
      assert forall p :: p in paths ==> IsPlainPath(p);
      assert "" !in paths;
      assert forall p :: p in paths <==> p in RefPaths(r, vars, loop);
      forall p | p in paths
        ensures PathFiles(r, p) <= files && PathWarnings(name, r, p) <= warnings
      {
      }
      assert files == RefFiles(r, vars, loop);
      assert warnings == RefWarnings(name, r, vars, loop);
    }
  }

  class PlaybookScanner {
    const host: Host
    var visited: set<string>
    var loads: seq<string>
    var files: seq<string>
    var warnings: seq<Warning>
    ghost var ctx: map<string, Vars>

    /** The visited files are those handed to the file system, each exactly once. */
    ghost predicate Valid()
      reads this
    {
      ctx.Keys == visited == Elements(loads) && NoRepeats(loads)
    }

    ghost function Result(): S.State
      reads this
    {
      S.State(ctx, Elements(files), Elements(warnings))
    }

    constructor (host: Host)
      ensures Valid() && this.host == host && Result() == S.START
    {
      this.host := host;
      visited := {};
      loads := [];
      files := [];
      warnings := [];
      ctx := map[];
    }

    method AddWarning(w: Warning)
      modifies this`warnings
      ensures Result() == Warn(old(Result()), {w})
    {
      ElementsAppend(warnings, [w]);
      assert Elements([w]) == {w};
      warnings := warnings + [w];
    }

    method AddFile(f: string)
      modifies this`files
      ensures Result() == old(Result()).(files := old(Result()).files + {f})
    {
      ElementsAppend(files, [f]);
      assert Elements([f]) == {f};
      files := files + [f];
    }

    method PlayVarsOf(play: Task, dir: string) returns (out: Vars)
      modifies this`warnings
      ensures out == PlayVars(host, play, dir)
      ensures Result() == Warn(old(Result()), PlayWarnings(host, play, dir))
    {
      out := CopyScalars(map[], AsFields(Field(play, "vars")));
      var list := StringList(Field(play, "vars_files"));
      assert list[0..] == list;
      assert map[] + ScalarEntries(AsFields(Field(play, "vars"))) == ScalarEntries(AsFields(Field(play, "vars")));
      for i := 0 to |list|
        invariant LoadVars(host, dir, list[i..], out) == PlayVars(host, play, dir)
        invariant Warn(Result(), VarsWarnings(host, dir, list[i..]))
                  == Warn(old(Result()), PlayWarnings(host, play, dir))
      {
        assert list[i..][0] == list[i] && list[i..][1..] == list[i + 1..];
        ghost var before := Result();
        match ReadVars(host, VarsPath(dir, list[i])) {
          case Err(w) =>
            AddWarning(w);
            assert before.warnings + ({w} + VarsWarnings(host, dir, list[i + 1..]))
                   == Result().warnings + VarsWarnings(host, dir, list[i + 1..]);
          case Ok(m) =>
            out := CopyScalars(out, m);
        }
      }
    }

    method CollectPath(name: string, r: Ref, path: string)
      modifies this`files, this`warnings
      ensures Result() == Add(old(Result()), PathFiles(r, path), PathWarnings(name, r, path))
    {
      if path == "" {
        var w := match r
          case ModulePath(mod, arg, raw) => Unresolved(name, mod, arg, raw)
          case CreatesPath(raw) => CreatesUnresolved(name, raw);
        AddWarning(w);
      } else if r.ModulePath? && HasSuffix(r.raw, "/") && r.mod == "get_url" {
        AddWarning(GetUrlDirectory(name, path));
      } else {
        AddFile(path);
      }
    }

    /** Records what one path reference stands for, path by path. */
    method Collect(name: string, r: Ref, vars: Vars, loop: seq<string>)
      modifies this`files, this`warnings
      ensures Result() == Note(old(Result()), name, {r}, {}, vars, loop)
    {
      var paths := Expand(r.raw, vars, loop);
      ghost var start := Result();
      assert paths[0..] == paths;
      for i := 0 to |paths|
        invariant NotePaths(Result(), name, r, paths[i..]) == NotePaths(start, name, r, paths)
      {
        assert paths[i..][0] == paths[i] && paths[i..][1..] == paths[i + 1..];
        CollectPath(name, r, paths[i]);
      }
      NotePathsAdds(start, name, r, paths);
      PathsOfRef(name, r, vars, loop);
      NoteOne(start, name, r, vars, loop);
    }

    method ScanModuleArgs(mod: string, args: seq<string>, v: Value, name: string, vars: Vars, loop: seq<string>)
      requires mod in FILE_MODULES && args == FILE_MODULES[mod]
      modifies this`files, this`warnings
      ensures Result() == Note(old(Result()), name, CallRefs(mod, v), CallWarnings(name, mod, v), vars, loop)
    {
      NoteNothing(Result(), name, CallWarnings(name, mod, v), vars, loop);
      if !v.Map? {
        AddWarning(NotAMapping(name, mod));
        return;
      }
      if mod == "file" && TextField(v.fields, "state") == "absent" {
        AddWarning(AbsentState(name));
        return;
      }
      assert args[0..] == args;
      for i := 0 to |args|
        invariant FirstArg(args, v.fields) == FirstArg(args[i..], v.fields)
        invariant Result() == old(Result())
      {
        assert args[i..][0] == args[i] && args[i..][1..] == args[i + 1..];
        var raw := TextField(v.fields, args[i]);
        if raw != "" {
          assert CallRefs(mod, v) == {ModulePath(mod, args[i], raw)};
          Collect(name, ModulePath(mod, args[i], raw), vars, loop);
          return;
        }
      }
    }

    method ScanCommandCreates(task: Task, name: string, vars: Vars, loop: seq<string>)
      requires name == DisplayName(task)
      modifies this`files, this`warnings
      ensures Result() == Note(old(Result()), name, CreatesRefs(task), RemovesWarnings(task), vars, loop)
    {
      var hasCmd, oneLiners := CommandLines(task);
      ghost var start := Result();
      NoteNothing(start, name, {}, vars, loop);
      if !hasCmd {
        return;
      }
      CreatesOfLines(task, oneLiners);
      ghost var first, lines, removes := FieldCreates(task), LinesCreates(oneLiners), RemovesWarnings(task);
      if TextField(task, "creates") != "" {
        Collect(name, CreatesPath(TextField(task, "creates")), vars, loop);
      }
      assert Result() == Note(start, name, first, {}, vars, loop);
      NoteTwice(start, name, first, {}, {}, removes, vars, loop);
      NoteNothing(Result(), name, removes, vars, loop);
      if TextField(task, "removes") != "" {
        AddWarning(RemovesPath(name, TextField(task, "removes")));
      }
      assert first + {} == first && {} + removes == removes;
      NoteTwice(start, name, first, removes, lines, {}, vars, loop);
      CollectLines(name, oneLiners, vars, loop);
      assert removes + {} == removes;
    }

    method CollectLines(name: string, lines: seq<string>, vars: Vars, loop: seq<string>)
      modifies this`files, this`warnings
      ensures Result() == Note(old(Result()), name, LinesCreates(lines), {}, vars, loop)
    {
      assert lines[0..] == lines;
      for i := 0 to |lines|
        invariant Note(Result(), name, LinesCreates(lines[i..]), {}, vars, loop)
                  == Note(old(Result()), name, LinesCreates(lines), {}, vars, loop)
      {
        ghost var rest := LinesCreates(lines[i + 1..]);
        assert lines[i..][0] == lines[i] && lines[i..][1..] == lines[i + 1..];
        match CreatesArg(lines[i], true) {
          case None =>
            assert {} + rest == rest;
          case Some(arg) =>
            NoteTwice(Result(), name, {CreatesPath(arg)}, {}, rest, {}, vars, loop);
            Collect(name, CreatesPath(arg), vars, loop);
        }
      }
      NoteNothing(Result(), name, {}, vars, loop);
    }

    /** The module keys of a leaf task, in whatever order the mapping yields them. */
    method ScanModules(task: Task, name: string, vars: Vars, loop: seq<string>)
      modifies this`files, this`warnings
      ensures Result() == Note(old(Result()), name, ModuleRefs(task), CallsWarnings(name, task, task.Keys), vars, loop)
    {
      var keys := task.Keys;
      while keys != {}
        invariant keys <= task.Keys
        invariant Note(Result(), name, CallsRefs(task, keys), CallsWarnings(name, task, keys), vars, loop)
               == Note(old(Result()), name, ModuleRefs(task), CallsWarnings(name, task, task.Keys), vars, loop)
      {
        var key :| key in keys;
        var mod := AfterLastDot(key);
        CallsStep(name, task, keys, key);
        NoteTwice(Result(), name, CallRefs(mod, task[key]), CallWarnings(name, mod, task[key]),
                  CallsRefs(task, keys - {key}), CallsWarnings(name, task, keys - {key}), vars, loop);
        NoteNothing(Result(), name, {}, vars, loop);
        if mod in FILE_MODULES {
          ScanModuleArgs(mod, FILE_MODULES[mod], task[key], name, vars, loop);
        }
        keys := keys - {key};
      }
      NoteNothing(Result(), name, {}, vars, loop);
      assert CallsRefs(task, {}) == {} && CallsWarnings(name, task, {}) == {};
    }

    /** Marks a file as visited; it still has to be loaded. */
    method MarkVisited(key: string, ghost vars: Vars)
      requires Valid() && key !in visited
      modifies this`visited, this`ctx
      ensures ctx.Keys == visited == Elements(loads) + {key} && visited == old(visited) + {key}
      ensures Result() == old(Result()).(ctx := old(Result()).ctx[key := vars])
    {
      visited := visited + {key};
      ctx := ctx[key := vars];
    }

    /** Hands a file to the file system, once. */
    method Load(key: string) returns (r: Result<seq<Value>, Failure>)
      requires key !in loads && NoRepeats(loads) && ctx.Keys == visited == Elements(loads) + {key}
      modifies this`loads
      ensures Valid() && loads == old(loads) + [key]
      ensures r == S.LoadPlays(host, key)
    {
      ElementsAppend(loads, [key]);
      assert Elements([key]) == {key};
      loads := loads + [key];
      r := S.LoadPlays(host, key);
    }

    method ScanFile(path: string, vars: Vars) returns (failure: Option<Failure>)
      requires Valid()
      modifies this
      ensures Valid() && old(visited) <= visited
      ensures (Result(), failure) == S.ScanFile(host, path, vars, old(Result()))
      decreases host.files.Keys - visited, 0, 0
    {
      var key := Abs(host.cwd, path);
      if key in visited {
        return None;
      }
      ghost var before := visited;
      assert key in Elements(loads) <==> key in loads;
      MarkVisited(key, vars);
      var loaded := Load(key);
      match loaded {
        case Err(f) =>
          return Some(f);
        case Ok(plays) =>
          assert key in host.files.Keys - before;
          assert host.files.Keys - visited < host.files.Keys - before;
          ScanDoc(plays, vars, Dir(key));
          return None;
      }
    }

    /** A task file, or a playbook with its plays. */
    method ScanDoc(plays: seq<Value>, vars: Vars, dir: string)
      requires Valid()
      modifies this
      ensures Valid() && old(visited) <= visited
      ensures Result()
              == S.ScanLeaves(host, S.DocLeaves(host, plays, vars, dir), dir,
                              Warn(old(Result()), S.DocWarnings(host, plays, dir)))
      decreases host.files.Keys - visited, 5
    {
      if S.IsTaskFile(plays) {
        assert Warn(Result(), {}) == Result();
        ScanTaskList(plays, vars, dir);
        return;
      }
      ScanLeavesWarn(host, S.PlaysLeaves(host, plays, vars, dir), dir, Result(), S.DocWarnings(host, plays, dir));
      ScanPlays(plays, vars, dir);
    }

    method ScanPlays(plays: seq<Value>, vars: Vars, dir: string)
      requires Valid()
      modifies this
      ensures Valid() && old(visited) <= visited
      ensures Result()
              == Warn(S.ScanLeaves(host, S.PlaysLeaves(host, plays, vars, dir), dir, old(Result())),
                      S.PlaysWarnings(host, plays, dir))
      decreases host.files.Keys - visited, 4
    {
      assert plays[0..] == plays;
      ghost var start := Result();
      for i := 0 to |plays|
        invariant Valid() && old(visited) <= visited
        invariant PlaysFrom(host, plays[i..], vars, dir, Result()) == PlaysFrom(host, plays, vars, dir, start)
      {
        assert plays[i..][0] == plays[i] && plays[i..][1..] == plays[i + 1..];
        PlaysStep(host, plays[i..], vars, dir, Result());
        if plays[i].Map? {
          ScanPlay(plays[i].fields, vars, dir);
        }
      }
    }

    method ScanPlay(play: Task, vars: Vars, dir: string)
      requires Valid()
      modifies this
      ensures Valid() && old(visited) <= visited
      ensures Result() == PlayScanned(host, play, vars, dir, old(Result()))
      decreases host.files.Keys - visited, 3
    {
      var playVars := PlayVarsOf(play, dir);
      playVars := MergeVars(vars, playVars);
      ScanSections(play, playVars, dir);
    }

    method ScanSections(play: Task, vars: Vars, dir: string)
      requires Valid()
      modifies this
      ensures Valid() && old(visited) <= visited
      ensures Result() == S.ScanLeaves(host, S.PlayLeaves(play, PLAY_SECTIONS, vars), dir, old(Result()))
      decreases host.files.Keys - visited, 2
    {
      ghost var start := Result();
      assert PLAY_SECTIONS[0..] == PLAY_SECTIONS;
      for i := 0 to |PLAY_SECTIONS|
        invariant Valid() && old(visited) <= visited
        invariant S.ScanLeaves(host, S.PlayLeaves(play, PLAY_SECTIONS[i..], vars), dir, Result())
               == S.ScanLeaves(host, S.PlayLeaves(play, PLAY_SECTIONS, vars), dir, start)
      {
        ghost var rest := PLAY_SECTIONS[i..];
        assert rest[0] == PLAY_SECTIONS[i] && rest[1..] == PLAY_SECTIONS[i + 1..];
        var items := AsItems(Field(play, PLAY_SECTIONS[i]));
        ScanLeavesAppend(host, ListLeaves(items, vars), S.PlayLeaves(play, rest[1..], vars), dir, Result());
        ScanTaskList(items, vars, dir);
      }
    }

    method ScanTaskList(tasks: seq<Value>, vars: Vars, dir: string)
      requires Valid()
      modifies this
      ensures Valid() && old(visited) <= visited
      ensures Result() == S.ScanLeaves(host, ListLeaves(tasks, vars), dir, old(Result()))
      decreases host.files.Keys - visited, 1, tasks
    {
      ghost var start := Result();
      assert tasks[0..] == tasks;
      for i := 0 to |tasks|
        invariant Valid() && old(visited) <= visited
        invariant S.ScanLeaves(host, ListLeaves(tasks[i..], vars), dir, Result())
                  == S.ScanLeaves(host, ListLeaves(tasks, vars), dir, start)
      {
        assert tasks[i..][0] == tasks[i] && tasks[i..][1..] == tasks[i + 1..];
        ScanLeavesAppend(host, ItemLeaves(tasks[i], vars), ListLeaves(tasks[i + 1..], vars), dir, Result());
        if tasks[i].Map? {
          ScanTask(tasks[i], vars, dir);
        }
      }
    }

    method ScanTask(item: Value, vars: Vars, dir: string)
      requires Valid() && item.Map?
      modifies this
      ensures Valid() && old(visited) <= visited
      ensures Result() == S.ScanLeaves(host, ItemLeaves(item, vars), dir, old(Result()))
      decreases host.files.Keys - visited, 1, item
    {
      var taskVars := CopyScalars(map[], AsFields(Field(item.fields, "vars")));
      assert map[] + TaskVars(item.fields) == TaskVars(item.fields);
      var localVars := MergeVars(vars, taskVars);
      LeavesOfItem(item, vars);
      ScanLocal(item, localVars, dir);
    }

    method ScanLocal(item: Value, vars: Vars, dir: string)
      requires Valid() && item.Map?
      modifies this
      ensures Valid() && old(visited) <= visited
      ensures Result() == S.ScanLeaves(host, LocalLeaves(item, vars), dir, old(Result()))
      decreases host.files.Keys - visited, 1, item, 1
    {
      var task := item.fields;
      var nested := ScanBlocks(item, vars, dir);
      if nested {
        return;
      }
      ghost var leaf := Leaf(task, vars);
      assert [leaf][1..] == [];
      if S.IncludeFile(task) != "" {
        ScanInclude(task, DisplayName(task), vars, dir);
        return;
      }
      ScanArgs(task, DisplayName(task), vars, dir);
    }

    method ScanArgs(task: Task, name: string, vars: Vars, ghost dir: string)
      requires S.IncludeFile(task) == "" && name == DisplayName(task)
      modifies this`files, this`warnings
      ensures Result() == S.ScanLeaf(host, Leaf(task, vars), dir, old(Result()))
    {
      var loop := LoopItems(task);
      ScanModules(task, name, vars, loop);
      ScanCommandCreates(task, name, vars, loop);
      LeafParts(task, vars, old(Result()));
    }

    method ScanBlocks(item: Value, vars: Vars, dir: string) returns (nested: bool)
      requires Valid() && item.Map?
      modifies this
      ensures Valid() && old(visited) <= visited
      ensures nested <==> IsBlock(item.fields)
      ensures Result() == S.ScanLeaves(host, SectionsLeaves(item, BLOCK_SECTIONS, vars), dir, old(Result()))
      ensures !nested ==> Result() == old(Result())
      decreases host.files.Keys - visited, 1, item, 0
    {
      ghost var start := Result();
      nested := false;
      assert BLOCK_SECTIONS[0..] == BLOCK_SECTIONS;
      for i := 0 to |BLOCK_SECTIONS|
        invariant Valid() && old(visited) <= visited
        invariant nested <==> exists j :: 0 <= j < i && Field(item.fields, BLOCK_SECTIONS[j]).List?
        invariant S.ScanLeaves(host, SectionsLeaves(item, BLOCK_SECTIONS[i..], vars), dir, Result())
               == S.ScanLeaves(host, SectionsLeaves(item, BLOCK_SECTIONS, vars), dir, start)
        invariant !nested ==> Result() == start
      {
        ghost var rest := BLOCK_SECTIONS[i..];
        var section := BLOCK_SECTIONS[i];
        assert rest[0] == section && rest[1..] == BLOCK_SECTIONS[i + 1..];
        ScanLeavesAppend(host, SectionLeaves(item, section, vars), SectionsLeaves(item, rest[1..], vars),
                         dir, Result());
        if section in item.fields && item.fields[section].List? {
          nested := true;
          ScanTaskList(item.fields[section].items, vars, dir);
        }
      }
      assert nested <==> IsBlock(item.fields) by {
        assert BLOCK_SECTIONS[0] == "block" && BLOCK_SECTIONS[1] == "rescue" && BLOCK_SECTIONS[2] == "always";
      }
    }

    method ScanInclude(task: Task, name: string, vars: Vars, dir: string)
      requires Valid() && S.IncludeFile(task) != "" && name == DisplayName(task)
      modifies this
      ensures Valid() && old(visited) <= visited
      ensures Result() == S.ScanLeaf(host, Leaf(task, vars), dir, old(Result()))
      decreases host.files.Keys - visited, 0, 1
    {
      var inc := Substitute(S.IncludeFile(task), vars);
      if HasTemplate(inc) {
        AddWarning(DynamicInclude(name, inc));
        return;
      }
      if !IsAbs(inc) {
        inc := Join(dir, inc);
      }
      var failure := ScanFile(inc, vars);
      if failure.Some? {
        AddWarning(IncludeFailed(name, inc, failure.value));
      }
    }
  }

  method CommandLines(task: Task) returns (hasCmd: bool, oneLiners: seq<string>)
    ensures hasCmd <==> HasCommand(task)
    ensures Elements(oneLiners) == set k | k in task && IsCommandKey(k) && task[k].Text? :: task[k].s
  {
    hasCmd, oneLiners := false, [];
    var keys := task.Keys;
    while keys != {}
      invariant keys <= task.Keys
      invariant hasCmd <==> exists k :: k in task.Keys - keys && IsCommandKey(k)
      invariant Elements(oneLiners) == set k | k in task.Keys - keys && IsCommandKey(k) && task[k].Text? :: task[k].s
    {
      var k :| k in keys;
      assert task.Keys - (keys - {k}) == (task.Keys - keys) + {k};
      if IsCommandKey(k) {
        hasCmd := true;
        if task[k].Text? {
          ElementsAppend(oneLiners, [task[k].s]);
          oneLiners := oneLiners + [task[k].s];
        }
      }
      keys := keys - {k};
    }
  }

  /** The `creates=` words of the one-line commands. */
  function LinesCreates(lines: seq<string>): set<Ref> {
    if lines == [] then {}
    else (match CreatesArg(lines[0], true) case None => {} case Some(arg) => {CreatesPath(arg)})
         + LinesCreates(lines[1..])
  }

  lemma {:induction false} LinesCreatesMembers(lines: seq<string>)
    ensures forall r :: r in LinesCreates(lines) <==>
                        exists one :: one in lines && CreatesArg(one, true).Some?
                                      && r == CreatesPath(CreatesArg(one, true).value)
  {
    if lines != [] {
      LinesCreatesMembers(lines[1..]);
      assert forall one :: one in lines <==> one == lines[0] || one in lines[1..];
    }
  }

  lemma CreatesOfLines(task: Task, lines: seq<string>)
    requires HasCommand(task)
    requires Elements(lines) == set k | k in task && IsCommandKey(k) && task[k].Text? :: task[k].s
    ensures CreatesRefs(task) == FieldCreates(task) + LinesCreates(lines)
  {
    LinesCreatesMembers(lines);
    var keyed := LineCreates(task);
    forall r | r in keyed
      ensures r in LinesCreates(lines)
    {
      var key :| key in task && r in KeyCreates(key, task[key]);
      assert task[key].s in Elements(lines);
    }
    forall one | one in lines && CreatesArg(one, true).Some?
      ensures CreatesPath(CreatesArg(one, true).value) in keyed
    {
      assert one in Elements(lines);
      var k :| k in task && IsCommandKey(k) && task[k].Text? && task[k].s == one;
      assert CreatesPath(CreatesArg(one, true).value) in KeyCreates(k, task[k]);
    }
  }

  lemma CallsStep(name: string, task: Task, keys: set<string>, key: string)
    requires key in keys && keys <= task.Keys
    ensures CallsRefs(task, keys) == CallRefs(AfterLastDot(key), task[key]) + CallsRefs(task, keys - {key})
    ensures CallsWarnings(name, task, keys)
            == CallWarnings(name, AfterLastDot(key), task[key]) + CallsWarnings(name, task, keys - {key})
  {
    assert forall k :: k in keys <==> k == key || k in keys - {key};
  }

  lemma LeafParts(task: Task, vars: Vars, st: S.State)
    ensures var loop, name := LoopItems(task), DisplayName(task);
            var mid := Note(st, name, ModuleRefs(task), CallsWarnings(name, task, task.Keys), vars, loop);
            Note(mid, name, CreatesRefs(task), RemovesWarnings(task), vars, loop)
            == Add(st, TaskFiles(task, vars), TaskWarnings(task, vars))
  {
    NoteTwice(st, DisplayName(task), ModuleRefs(task), CallsWarnings(DisplayName(task), task, task.Keys),
              CreatesRefs(task), RemovesWarnings(task), vars, LoopItems(task));
  }

  /** One play: its warnings about variable files first, then its sections. */
  ghost function PlayScanned(h: Host, play: Task, vars: Vars, dir: string, st: S.State): S.State {
    S.ScanLeaves(h, S.PlayLeaves(play, PLAY_SECTIONS, vars + PlayVars(h, play, dir)), dir,
                 Warn(st, PlayWarnings(h, play, dir)))
  }

  ghost function PlaysFrom(h: Host, plays: seq<Value>, vars: Vars, dir: string, st: S.State): S.State {
    Warn(S.ScanLeaves(h, S.PlaysLeaves(h, plays, vars, dir), dir, st), S.PlaysWarnings(h, plays, dir))
  }

  lemma PlaysStep(h: Host, plays: seq<Value>, vars: Vars, dir: string, st: S.State)
    requires plays != []
    ensures PlaysFrom(h, plays, vars, dir, st)
         == PlaysFrom(h, plays[1..], vars, dir,
                      if plays[0].Map? then PlayScanned(h, plays[0].fields, vars, dir, st) else st)
  {
    var rest, later := S.PlaysLeaves(h, plays[1..], vars, dir), S.PlaysWarnings(h, plays[1..], dir);
    if plays[0].Map? {
      var play := plays[0].fields;
      var leaves := S.PlayLeaves(play, PLAY_SECTIONS, vars + PlayVars(h, play, dir));
      SplitScan(h, leaves, rest, dir, PlayWarnings(h, play, dir), later, st);
    } else {
      assert [] + rest == rest && {} + later == later;
    }
  }

  /** Warnings may be issued before or after the leaves they belong to. */
  lemma SplitScan(h: Host, leaves: seq<Leaf>, rest: seq<Leaf>, dir: string, own: set<Warning>, later: set<Warning>,
                  st: S.State)
    ensures Warn(S.ScanLeaves(h, rest, dir, S.ScanLeaves(h, leaves, dir, Warn(st, own))), later)
         == Warn(S.ScanLeaves(h, leaves + rest, dir, st), own + later)
  {
    ScanLeavesAppend(h, leaves, rest, dir, Warn(st, own));
    ScanLeavesWarn(h, leaves + rest, dir, st, own);
  }

  ghost function SectionsLeaves(item: Value, sections: seq<string>, vars: Vars): seq<Leaf>
    requires item.Map?
    decreases |sections|
  {
    if sections == [] then []
    else SectionLeaves(item, sections[0], vars) + SectionsLeaves(item, sections[1..], vars)
  }

  /** The leaves of a task once its own variables are merged in. */
  ghost function LocalLeaves(item: Value, vars: Vars): seq<Leaf>
    requires item.Map?
  {
    if IsBlock(item.fields) then SectionsLeaves(item, BLOCK_SECTIONS, vars) else [Leaf(item.fields, vars)]
  }

  lemma LeavesOfItem(item: Value, vars: Vars)
    requires item.Map?
    ensures ItemLeaves(item, vars) == LocalLeaves(item, vars + TaskVars(item.fields))
  {
    if IsBlock(item.fields) {
      SectionsAreLeaves(item, vars + TaskVars(item.fields));
    }
  }

  lemma SectionsAreLeaves(item: Value, local: Vars)
    requires item.Map?
    ensures SectionsLeaves(item, BLOCK_SECTIONS, local)
         == SectionLeaves(item, "block", local) + SectionLeaves(item, "rescue", local)
            + SectionLeaves(item, "always", local)
  {
    var s := BLOCK_SECTIONS;
    assert s[1..][1..] == ["always"] && s[1..][1..][1..] == [];
  }

  lemma RefsOfOne(name: string, r: Ref, vars: Vars, loop: seq<string>)
    ensures RefsFiles({r}, vars, loop) == RefFiles(r, vars, loop)
    ensures RefsWarnings(name, {r}, vars, loop) == RefWarnings(name, r, vars, loop)
  {
  }

  lemma RefsUnion(name: string, a: set<Ref>, b: set<Ref>, vars: Vars, loop: seq<string>)
    ensures RefsFiles(a + b, vars, loop) == RefsFiles(a, vars, loop) + RefsFiles(b, vars, loop)
    ensures RefsWarnings(name, a + b, vars, loop)
            == RefsWarnings(name, a, vars, loop) + RefsWarnings(name, b, vars, loop)
  {
  }

  /**
   The scan of a list of playbooks: fails where the fold fails, and otherwise
   returns its files and warnings without repeats.
   */
  method ScanPlaybooks(host: Host, paths: seq<string>) returns (r: Result<(seq<string>, seq<Warning>), Failure>)
    requires paths != []
    ensures match (r, S.ScanRoots(host, paths, S.START))
            case (Ok((files, warnings)), Ok(st)) =>
              && NoRepeats(files) && Elements(files) == st.files
              && NoRepeats(warnings) && Elements(warnings) == st.warnings
            case (Err(f), Err(g)) => f == g
            case _ => false
  {
    var s := new PlaybookScanner(host);
    assert paths[0..] == paths;
    for i := 0 to |paths|
      invariant fresh(s) && s.Valid() && s.host == host
      invariant S.ScanRoots(host, paths[i..], s.Result()) == S.ScanRoots(host, paths, S.START)
    {
      assert paths[i..][0] == paths[i] && paths[i..][1..] == paths[i + 1..];
      var failure := s.ScanFile(paths[i], map[]);
      if failure.Some? {
        return Err(failure.value);
      }
    }
    var files := Dedupe(s.files);
    var warnings := Dedupe(s.warnings);
    r := Ok((files, warnings));
  }
}
