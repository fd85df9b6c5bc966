/**
 One playbook that loses a file: it includes the same tasks twice with different
 variables, and what they manage the second time is neither returned nor warned about.
 */
module ScanTwice {
  import opened Wrappers
  import opened Text
  import opened Paths
  import opened Templates
  import opened Playbooks
  import opened Scan
  import opened ScanContexts
  import Scanner
  import ScanSilence
  import ScanTheorems

  /** `copy: { dest: "{{d}}" }` */
  const CALL: Task := map["dest" := Text("{{d}}")]
  const COPY: Task := map["copy" := Map(CALL)]

  function Under(path: string): Vars {
    map["d" := path]
  }

  /** `include_tasks: /t` with a variable. */
  function Include(path: string): Task {
    map["include_tasks" := Text("/t"), "vars" := Map(map["d" := Text(path)])]
  }

  function Twice(a: string, b: string): seq<Value> {
    [Map(Include(a)), Map(Include(b))]
  }

  function Disk(a: string, b: string): Host {
    Host("/", map["/p" := Parsed(Some(List(Twice(a, b))), None), "/t" := Parsed(Some(List([Map(COPY)])), None)])
  }

  // ---- names ----

  lemma KeyOfName(cwd: string, name: string)
    requires IsName(name)
    ensures Abs(cwd, "/" + name) == "/" + name
  {
    var p := "/" + name;
    assert p[1..] == name;
    SplitPrefix(name, "", '/');
    assert name + "" == name && Split(name, '/') == [name];
    assert Split(p, '/') == [""] + [name] && ([""] + [name])[1..] == [name];
    CleanFixesIff(p);
  }

  lemma Keys(cwd: string)
    ensures Abs(cwd, "/p") == "/p" && Abs(cwd, "/t") == "/t"
  {
    assert "/" + "p" == "/p" && "/" + "t" == "/t";
    KeyOfName(cwd, "p");
    KeyOfName(cwd, "t");
  }

  // ---- the tasks that are included ----

  lemma CopyName()
    ensures AfterLastDot("copy") == "copy" && |"copy"| == 4
  {
    var mod := AfterLastDot("copy");
    assert forall i :: 0 <= i < 4 ==> "copy"[i] != '.';
    assert "copy"[4 - |mod|..] == mod;
  }

  lemma ShortName(key: string)
    requires |key| == 4
    ensures key !in COMMAND_MODULES && key !in INCLUDE_KEYS && key !in {"creates", "removes"}
  {
  }

  lemma OneCall(key: string, v: Value, name: string)
    ensures ModuleRefs(map[key := v]) == CallRefs(AfterLastDot(key), v)
    ensures CallsWarnings(name, map[key := v], (map[key := v]).Keys) == CallWarnings(name, AfterLastDot(key), v)
  {
    var task: Task := map[key := v];
    var refs, warnings := ModuleRefs(task), CallsWarnings(name, task, task.Keys);
    forall r
      ensures r in refs <==> r in CallRefs(AfterLastDot(key), v)
    {
      if r in refs {
        var k := ScanSilence.RefFrom(task, r);
      }
      if r in CallRefs(AfterLastDot(key), v) {
        ScanSilence.RefIn(task, key, r);
      }
    }
    assert key in task && task[key] == v;
    assert forall w :: w in warnings <==> w in CallWarnings(name, AfterLastDot(key), v);
  }

  lemma NoCommands(task: Task)
    requires forall key :: key in task ==> !IsCommandKey(key)
    ensures CreatesRefs(task) == {} && RemovesWarnings(task) == {}
  {
  }

  lemma CopyCall(name: string)
    ensures CallRefs("copy", Map(CALL)) == {ModulePath("copy", "dest", "{{d}}")}
    ensures CallWarnings(name, "copy", Map(CALL)) == {}
  {
    assert "copy"[0] == 'c' && "file"[0] == 'f';
    assert FILE_MODULES["copy"] == ["dest"] && ["dest"][0] == "dest";
    assert TextField(CALL, "dest") == "{{d}}" && |"{{d}}"| == 5;
  }

  lemma CopyOnlyCalls()
    ensures IncludeFile(COPY) == "" && CreatesRefs(COPY) == {} && RemovesWarnings(COPY) == {}
  {
    CopyName();
    ShortName("copy");
    NoIncludes(COPY, INCLUDE_KEYS);
    NoCommands(COPY);
  }

  lemma CallsOf(key: string, v: Value, mod: string, r: Ref, name: string)
    requires AfterLastDot(key) == mod && CallRefs(mod, v) == {r} && CallWarnings(name, mod, v) == {}
    ensures ModuleRefs(map[key := v]) == {r} && CallsWarnings(name, map[key := v], (map[key := v]).Keys) == {}
  {
    OneCall(key, v, name);
  }

  lemma CopyModules()
    ensures ModuleRefs(COPY) == {ModulePath("copy", "dest", "{{d}}")}
    ensures CallsWarnings(DisplayName(COPY), COPY, COPY.Keys) == {}
  {
    CopyName();
    CopyCall(DisplayName(COPY));
    CallsOf("copy", Map(CALL), "copy", ModulePath("copy", "dest", "{{d}}"), DisplayName(COPY));
  }

  lemma CopyTask()
    ensures TaskRefs(COPY) == {ModulePath("copy", "dest", "{{d}}")}
    ensures CallsWarnings(DisplayName(COPY), COPY, COPY.Keys) == {}
  {
    CopyModules();
    CopyOnlyCalls();
    OnlyModules(COPY, ModulePath("copy", "dest", "{{d}}"));
  }

  lemma OnlyModules(task: Task, r: Ref)
    requires ModuleRefs(task) == {r} && CreatesRefs(task) == {}
    ensures TaskRefs(task) == {r}
  {
  }

  lemma Resolves(path: string)
    ensures Substitute("{{d}}", Under(path)) == path
  {
    var m := "{{d}}";
    assert m[2..][1..] == "}}";
    assert m[2..3] == "d" && TrimSpace("d") == "d";
    assert IsReference(m) && m + "" == m;
    ReferenceFirst(m, "", Under(path));
    assert path + "" == path;
  }

  lemma PathIsWhole(path: string, loop: seq<string>)
    requires IsPlainPath(path)
    ensures ExpandPath("{{d}}", Under(path), loop) == [path]
  {
    Resolves(path);
    if Contains(path, ITEM) {
      ScanTheorems.ItemIsTemplate(path);
    }
    var paths := [path];
    assert paths[0] in paths && forall p :: p in paths ==> p == path;
  }

  lemma OneRef(task: Task, vars: Vars, r: Ref, dir: string)
    requires TaskRefs(task) == {r} && IncludeFile(task) == ""
    requires CallsWarnings(DisplayName(task), task, task.Keys) == {} && RemovesWarnings(task) == {}
    ensures LeafFiles(Leaf(task, vars)) == RefFiles(r, vars, LoopItems(task))
    ensures LeafWarnings(Leaf(task, vars), dir) == RefWarnings(DisplayName(task), r, vars, LoopItems(task))
    ensures TaskFiles(task, vars) == RefFiles(r, vars, LoopItems(task))
    ensures TaskWarnings(task, vars) == RefWarnings(DisplayName(task), r, vars, LoopItems(task))
  {
    Scanner.RefsOfOne(DisplayName(task), r, vars, LoopItems(task));
  }

  lemma OnePath(name: string, r: Ref, vars: Vars, loop: seq<string>, path: string)
    requires IsRecordable(r) && ExpandPath(r.raw, vars, loop) == [path] && path != ""
    ensures RefFiles(r, vars, loop) == {path} && RefWarnings(name, r, vars, loop) == {}
  {
    assert [path][0] in [path];
    assert forall p :: p in [path] <==> p == path;
  }

  /** The included task manages the path its variable holds. */
  lemma CopyLeaf(path: string, dir: string)
    requires IsPlainPath(path)
    ensures LeafFiles(Leaf(COPY, Under(path))) == {path} && LeafWarnings(Leaf(COPY, Under(path)), dir) == {}
    ensures IncludeFile(COPY) == "" && TaskFiles(COPY, Under(path)) == {path} && TaskWarnings(COPY, Under(path)) == {}
  {
    var vars, loop, r := Under(path), LoopItems(COPY), ModulePath("copy", "dest", "{{d}}");
    CopyOnlyCalls();
    CopyTask();
    PathIsWhole(path, loop);
    assert IsRecordable(r) by {
      assert "copy"[0] != "get_url"[0];
    }
    OnePath(DisplayName(COPY), r, vars, loop, path);
    OneRef(COPY, vars, r, dir);
  }

  // ---- the includes ----

  lemma SkipsKey(task: Task, keys: seq<string>)
    requires keys != [] && keys[0] !in task
    ensures FirstInclude(task, keys) == FirstInclude(task, keys[1..])
  {
  }

  lemma IncludesTasks(path: string, vars: Vars, dir: string)
    ensures IncludeFile(Include(path)) == "/t" && IncludeTarget(Leaf(Include(path), vars), dir) == Some("/t")
  {
    var task := Include(path);
    assert |"vars"| == 4 && "import_tasks"[1] == 'm' && "include_tasks"[1] == 'n';
    assert "import_tasks" !in task;
    SkipsKey(task, INCLUDE_KEYS);
    assert INCLUDE_KEYS[1..][0] == "include_tasks" && task["include_tasks"] == Text("/t");
    BraceFree("/t");
    SubstituteTemplateFree("/t", vars);
  }

  // ---- the two files ----

  lemma BareTask(task: Task)
    requires forall k :: k in task ==> |k| == 4 || |k| == 13
    ensures !IsPlay(task) && !IsBlock(task)
  {
    assert |"hosts"| == 5 && |"tasks"| == 5 && |"pre_tasks"| == 9 && |"post_tasks"| == 10 && |"handlers"| == 8;
    assert |"roles"| == 5 && |"block"| == 5 && |"rescue"| == 6 && |"always"| == 6;
  }

  lemma ItemWithoutVars(task: Task, vars: Vars)
    requires "vars" !in task && !IsBlock(task)
    ensures ItemLeaves(Map(task), vars) == [Leaf(task, vars)]
  {
    assert TaskVars(task) == map[] && vars + map[] == vars;
  }

  lemma OneKey(key: string, v: Value, vars: Vars)
    requires |key| == 4 && key != "vars"
    ensures ItemLeaves(Map(map[key := v]), vars) == [Leaf(map[key := v], vars)] && !IsPlay(map[key := v])
  {
    BareTask(map[key := v]);
    ItemWithoutVars(map[key := v], vars);
  }

  lemma CopyItem(vars: Vars)
    ensures ItemLeaves(Map(COPY), vars) == [Leaf(COPY, vars)] && !IsPlay(COPY)
  {
    assert "vars"[0] != "copy"[0];
    OneKey("copy", Map(CALL), vars);
  }

  lemma IncludeVars(path: string)
    ensures TaskVars(Include(path)) == Under(path)
  {
    assert Field(Include(path), "vars") == Map(map["d" := Text(path)]);
  }

  lemma BareInclude(path: string)
    ensures !IsPlay(Include(path)) && !IsBlock(Include(path))
  {
    assert |"vars"| == 4 && |"include_tasks"| == 13;
    BareTask(Include(path));
  }

  lemma IncludeItem(path: string)
    ensures ItemLeaves(Map(Include(path)), map[]) == [Leaf(Include(path), Under(path))] && !IsPlay(Include(path))
  {
    BareInclude(path);
    IncludeVars(path);
    assert map[] + Under(path) == Under(path);
  }

  lemma Tasks(a: string, b: string, vars: Vars)
    ensures FileLeaves(Disk(a, b), "/t", vars) == [Leaf(COPY, vars)]
    ensures LoadPlays(Disk(a, b), "/t") == Ok([Map(COPY)]) && IsTaskFile([Map(COPY)])
  {
    assert "/t"[1] != "/p"[1];
    CopyItem(vars);
    assert [Map(COPY)][1..] == [] && [Map(COPY)][0] == Map(COPY);
    assert ListLeaves([Map(COPY)], vars) == ItemLeaves(Map(COPY), vars) + [];
  }

  lemma Playbook(a: string, b: string)
    ensures FileLeaves(Disk(a, b), "/p", map[]) == [Leaf(Include(a), Under(a)), Leaf(Include(b), Under(b))]
    ensures LoadPlays(Disk(a, b), "/p") == Ok(Twice(a, b)) && IsTaskFile(Twice(a, b))
  {
    var plays := Twice(a, b);
    assert "/t"[1] != "/p"[1];
    IncludeItem(a);
    IncludeItem(b);
    assert plays[1..] == [Map(Include(b))] && plays[1..][1..] == [];
    assert ListLeaves(plays[1..], map[]) == ItemLeaves(Map(Include(b)), map[]) + [];
    assert ListLeaves(plays, map[]) == ItemLeaves(Map(Include(a)), map[]) + ListLeaves(plays[1..], map[]);
  }

  // ---- the scan ----

  lemma OneLeaf(h: Host, leaf: Leaf, dir: string, st: State)
    ensures ScanLeaves(h, [leaf], dir, st) == ScanLeaf(h, leaf, dir, st)
  {
    assert [leaf][1..] == [];
  }

  lemma TwoLeaves(h: Host, first: Leaf, second: Leaf, dir: string, st: State)
    ensures ScanLeaves(h, [first, second], dir, st) == ScanLeaf(h, second, dir, ScanLeaf(h, first, dir, st))
  {
    assert [first, second][1..] == [second];
    OneLeaf(h, second, dir, ScanLeaf(h, first, dir, st));
  }

  /** A task file that is visited for the first time. */
  lemma FirstVisit(h: Host, path: string, vars: Vars, st: State, plays: seq<Value>)
    requires Abs(h.cwd, path) !in st.ctx && LoadPlays(h, Abs(h.cwd, path)) == Ok(plays) && IsTaskFile(plays)
    ensures var key := Abs(h.cwd, path);
            var seen := State(st.ctx[key := vars], st.files, st.warnings);
            ScanFile(h, path, vars, st) == (ScanLeaves(h, FileLeaves(h, key, vars), Dir(key), seen), None)
  {
    assert st.warnings + {} == st.warnings;
  }

  lemma OneRoot(h: Host, root: string, next: State)
    requires ScanFile(h, root, map[], START) == (next, None)
    ensures ScanRoots(h, [root], START) == Ok(next)
  {
    assert [root][1..] == [];
  }

  /** The first visit of the tasks records the path of its variable. */
  lemma VisitTasks(a: string, b: string, path: string, st: State)
    requires IsPlainPath(path) && "/t" !in st.ctx
    ensures ScanFile(Disk(a, b), "/t", Under(path), st)
         == (State(st.ctx["/t" := Under(path)], st.files + {path}, st.warnings), None)
  {
    var h, leaf := Disk(a, b), Leaf(COPY, Under(path));
    Keys("/");
    Tasks(a, b, Under(path));
    CopyLeaf(path, Dir("/t"));
    FirstVisit(h, "/t", Under(path), st, [Map(COPY)]);
    var seen := State(st.ctx["/t" := Under(path)], st.files, st.warnings);
    OneLeaf(h, leaf, Dir("/t"), seen);
    RecordsPath(h, leaf, Dir("/t"), seen, path);
  }

  lemma RecordsPath(h: Host, leaf: Leaf, dir: string, st: State, path: string)
    requires IncludeFile(leaf.task) == ""
    requires TaskFiles(leaf.task, leaf.vars) == {path} && TaskWarnings(leaf.task, leaf.vars) == {}
    ensures ScanLeaf(h, leaf, dir, st) == State(st.ctx, st.files + {path}, st.warnings)
  {
    assert st.warnings + {} == st.warnings;
  }

  lemma FollowInclude(a: string, b: string, path: string, dir: string, st: State)
    requires IsPlainPath(path)
    ensures ScanLeaf(Disk(a, b), Leaf(Include(path), Under(path)), dir, st)
         == if "/t" in st.ctx then st else State(st.ctx["/t" := Under(path)], st.files + {path}, st.warnings)
  {
    Keys("/");
    IncludesTasks(path, Under(path), dir);
    if "/t" !in st.ctx {
      VisitTasks(a, b, path, st);
    }
  }

  lemma VisitPlaybook(a: string, b: string)
    requires IsPlainPath(a) && IsPlainPath(b)
    ensures var next := ScanLeaf(Disk(a, b), Leaf(Include(a), Under(a)), Dir("/p"), State(map["/p" := map[]], {}, {}));
            ScanFile(Disk(a, b), "/p", map[], START)
            == (ScanLeaf(Disk(a, b), Leaf(Include(b), Under(b)), Dir("/p"), next), None)
  {
    var h := Disk(a, b);
    Keys("/");
    Playbook(a, b);
    FirstVisit(h, "/p", map[], START, Twice(a, b));
    TwoLeaves(h, Leaf(Include(a), Under(a)), Leaf(Include(b), Under(b)), Dir("/p"), State(map["/p" := map[]], {}, {}));
  }

  lemma ScanTwiceIncluded(a: string, b: string)
    requires IsPlainPath(a) && IsPlainPath(b)
    ensures ScanRoots(Disk(a, b), ["/p"], START) == Ok(State(map["/p" := map[], "/t" := Under(a)], {a}, {}))
  {
    var seen := State(map["/p" := map[]], {}, {});
    var next := State(map["/p" := map[], "/t" := Under(a)], {a}, {});
    assert "/t"[1] != "/p"[1];
    VisitPlaybook(a, b);
    FollowInclude(a, b, a, Dir("/p"), seen);
    assert seen.ctx["/t" := Under(a)] == next.ctx && {} + {a} == {a};
    FollowInclude(a, b, b, Dir("/p"), next);
    OneRoot(Disk(a, b), "/p", next);
  }

  // ---- the use that is lost ----

  lemma FilesOfOne(h: Host, k: string, vars: Vars, leaf: Leaf)
    requires FileLeaves(h, k, vars) == [leaf]
    ensures leaf in FileLeaves(h, k, vars) && FilesOf(h, k, vars) == LeafFiles(leaf)
  {
    assert [leaf][0] == leaf && forall l :: l in [leaf] <==> l == leaf;
  }

  lemma RootLeads(h: Host, root: string)
    ensures LeadsTo(h, [root], Abs(h.cwd, root), map[], [])
  {
    assert [root][0] == root;
  }

  lemma SecondFiles(a: string, b: string)
    requires IsPlainPath(b)
    ensures FilesOf(Disk(a, b), "/t", Under(b)) == {b}
  {
    Tasks(a, b, Under(b));
    CopyLeaf(b, "");
    FilesOfOne(Disk(a, b), "/t", Under(b), Leaf(COPY, Under(b)));
  }

  lemma SecondUse(a: string, b: string)
    ensures IsContext(Disk(a, b), ["/p"], "/t", Under(b))
  {
    var h, leaf := Disk(a, b), Leaf(Include(b), Under(b));
    Keys("/");
    Playbook(a, b);
    IncludesTasks(b, Under(b), Dir("/p"));
    RootLeads(h, "/p");
    assert [Leaf(Include(a), Under(a)), leaf][1] == leaf;
    IncludeLeads(h, ["/p"], Visit("/p", map[], leaf), "/t", []);
  }

  /**
   For any two paths: what the tasks manage when they are included the second time is
   not among the results, and nothing is said about it.
   */
  lemma SecondUseIsLost(a: string, b: string)
    requires IsPlainPath(a) && IsPlainPath(b) && a != b
    ensures var h, r := Disk(a, b), ScanRoots(Disk(a, b), ["/p"], START);
            && IsManaged(h, ["/p"], b)
            && r.Ok? && b !in r.value.files && r.value.warnings == {}
  {
    SecondUse(a, b);
    SecondFiles(a, b);
    ScanTwiceIncluded(a, b);
  }

  /** For one: the second of two destinations. */
  lemma SecondDestinationIsLost()
    ensures var r := ScanRoots(Disk("/a", "/b"), ["/p"], START);
            IsManaged(Disk("/a", "/b"), ["/p"], "/b") && r.Ok? && "/b" !in r.value.files && r.value.warnings == {}
  {
    BraceFree("/a");
    BraceFree("/b");
    assert "/a"[1] != "/b"[1];
    SecondUseIsLost("/a", "/b");
  }
}
