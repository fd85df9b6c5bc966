/**
 What a scan makes of a playbook, stated on the playbook as it is written: which of
 its mappings are tasks, which files they include and which paths they manage.
 */
module ScanWritten {
  import opened Wrappers
  import opened Text
  import opened Paths
  import opened Templates
  import opened Playbooks
  import opened Scan
  import ScanTheorems

  // ---- tasks ----

  /** From a list into the section of a block it holds. */
  datatype Hop = Hop(at: nat, section: string)

  /** Following `hops` down nested blocks, the `i`-th item there is the task `t`, itself no block. */
  ghost predicate IsTaskAt(items: seq<Value>, hops: seq<Hop>, i: nat, t: Task)
    decreases |hops|
  {
    if hops == [] then
      && i < |items| && items[i] == Map(t)
      && forall section :: section in {"block", "rescue", "always"} && section in t ==> !t[section].List?
    else
      && hops[0].at < |items| && items[hops[0].at].Map?
      && var block, section := items[hops[0].at].fields, hops[0].section;
      && section in {"block", "rescue", "always"} && section in block && block[section].List?
      && IsTaskAt(block[section].items, hops[1..], i, t)
  }

  ghost predicate HasTask(items: seq<Value>, t: Task) {
    exists hops: seq<Hop>, i: nat :: IsTaskAt(items, hops, i, t)
  }

  /** A list whose first item is a mapping that has no key of a play. */
  ghost predicate IsBareTaskList(items: seq<Value>) {
    && items != [] && items[0].Map?
    && forall key :: key in {"hosts", "tasks", "pre_tasks", "post_tasks", "handlers", "roles"} ==>
                       key !in items[0].fields
  }

  ghost predicate PlayHasTask(play: Value, t: Task) {
    && play.Map?
    && exists section :: section in {"pre_tasks", "tasks", "post_tasks", "handlers"}
                         && section in play.fields && play.fields[section].List?
                         && HasTask(play.fields[section].items, t)
  }

  /** A bare task list holds tasks, any other document plays; a single mapping counts as a list of one. */
  ghost predicate DocHasTask(doc: Value, t: Task) {
    var items := if doc.List? then doc.items else if doc.Map? then [doc] else [];
    if IsBareTaskList(items) then HasTask(items, t) else exists play :: play in items && PlayHasTask(play, t)
  }

  lemma {:induction false} ItemLeafInList(items: seq<Value>, vars: Vars, k: nat)
    requires k < |items|
    ensures forall l :: l in ItemLeaves(items[k], vars) ==> l in ListLeaves(items, vars)
  {
    if k > 0 {
      ItemLeafInList(items[1..], vars, k - 1);
    }
  }

  lemma SectionLeafInItem(item: Value, section: string, vars: Vars)
    requires item.Map? && section in {"block", "rescue", "always"}
             && section in item.fields && item.fields[section].List?
    ensures IsBlock(item.fields)
    ensures forall l :: l in ListLeaves(item.fields[section].items, vars + TaskVars(item.fields)) ==>
                          l in ItemLeaves(item, vars)
  {
    var local := vars + TaskVars(item.fields);
    assert SectionLeaves(item, section, local) == ListLeaves(item.fields[section].items, local);
  }

  /** Every task that is written is a leaf, and what it defines itself comes before what it inherits. */
  lemma {:induction false} WrittenIsLeaf(items: seq<Value>, hops: seq<Hop>, i: nat, t: Task, vars: Vars)
    returns (l: Leaf)
    requires IsTaskAt(items, hops, i, t)
    ensures l in ListLeaves(items, vars) && l.task == t
    ensures forall k :: k in TaskVars(t) ==> k in l.vars && l.vars[k] == TaskVars(t)[k]
    decreases |hops|
  {
    if hops == [] {
      l := Leaf(t, vars + TaskVars(t));
      assert !IsBlock(t) by {
        assert "block" in {"block", "rescue", "always"};
      }
      ItemLeafInList(items, vars, i);
    } else {
      var item := items[hops[0].at];
      SectionLeafInItem(item, hops[0].section, vars);
      l := WrittenIsLeaf(item.fields[hops[0].section].items, hops[1..], i, t, vars + TaskVars(item.fields));
      ItemLeafInList(items, vars, hops[0].at);
    }
  }

  /** Every leaf is a task that is written. */
  lemma {:induction false} LeafIsWritten(items: seq<Value>, vars: Vars, l: Leaf)
    requires l in ListLeaves(items, vars)
    ensures HasTask(items, l.task)
    decreases items, 1
  {
    if l in ItemLeaves(items[0], vars) {
      ItemLeafIsWritten(items, vars, l);
    } else {
      LeafIsWritten(items[1..], vars, l);
      var hops: seq<Hop>, i: nat :| IsTaskAt(items[1..], hops, i, l.task);
      if hops == [] {
        assert IsTaskAt(items, [], i + 1, l.task);
      } else {
        var first := Hop(hops[0].at + 1, hops[0].section);
        assert ([first] + hops[1..])[1..] == hops[1..];
        assert IsTaskAt(items, [first] + hops[1..], i, l.task);
      }
    }
  }

  lemma {:induction false} ItemLeafIsWritten(items: seq<Value>, vars: Vars, l: Leaf)
    requires items != [] && l in ItemLeaves(items[0], vars)
    ensures HasTask(items, l.task)
    decreases items, 0
  {
    var item := items[0];
    var local := vars + TaskVars(item.fields);
    if IsBlock(item.fields) {
      var section := if l in SectionLeaves(item, "block", local) then "block"
      else if l in SectionLeaves(item, "rescue", local) then "rescue" else "always";
      assert l in SectionLeaves(item, section, local);
      var nested := item.fields[section].items;
      LeafIsWritten(nested, local, l);
      var hops: seq<Hop>, i: nat :| IsTaskAt(nested, hops, i, l.task);
      assert ([Hop(0, section)] + hops)[1..] == hops;
      assert IsTaskAt(items, [Hop(0, section)] + hops, i, l.task);
    } else {
      assert IsTaskAt(items, [], 0, l.task);
    }
  }

  lemma {:induction false} PlayLeafIff(play: Task, sections: seq<string>, vars: Vars, l: Leaf)
    ensures l in PlayLeaves(play, sections, vars) <==>
            exists section :: section in sections && l in ListLeaves(AsItems(Field(play, section)), vars)
  {
    if sections != [] {
      PlayLeafIff(play, sections[1..], vars, l);
      assert forall section :: section in sections <==> section == sections[0] || section in sections[1..];
    }
  }

  /** The leaves of one play among others. */
  function LeavesOfPlay(h: Host, play: Value, vars: Vars, dir: string): seq<Leaf> {
    if play.Map? then PlayLeaves(play.fields, PLAY_SECTIONS, vars + PlayVars(h, play.fields, dir)) else []
  }

  lemma {:induction false} PlaysLeafIff(h: Host, plays: seq<Value>, vars: Vars, dir: string, l: Leaf)
    ensures l in PlaysLeaves(h, plays, vars, dir) <==>
            exists play :: play in plays && l in LeavesOfPlay(h, play, vars, dir)
  {
    if plays != [] {
      PlaysLeafIff(h, plays[1..], vars, dir, l);
      assert PlaysLeaves(h, plays, vars, dir)
          == LeavesOfPlay(h, plays[0], vars, dir) + PlaysLeaves(h, plays[1..], vars, dir);
      assert forall play :: play in plays <==> play == plays[0] || play in plays[1..];
    }
  }

  lemma PlaySections()
    ensures forall section :: section in PLAY_SECTIONS <==> section in {"pre_tasks", "tasks", "post_tasks", "handlers"}
  {
    assert PLAY_SECTIONS[0] == "pre_tasks" && PLAY_SECTIONS[1] == "tasks";
    assert PLAY_SECTIONS[2] == "post_tasks" && PLAY_SECTIONS[3] == "handlers";
  }

  lemma BareIff(items: seq<Value>)
    ensures IsBareTaskList(items) <==> IsTaskFile(items)
  {
    if items != [] && items[0].Map? && IsBareTaskList(items) {
      var keys := {"hosts", "tasks", "pre_tasks", "post_tasks", "handlers", "roles"};
      assert "hosts" in keys && "tasks" in keys && "pre_tasks" in keys && "post_tasks" in keys
             && "handlers" in keys && "roles" in keys;
    }
  }

  /** The document a key leads to, as a list of plays or tasks. */
  ghost predicate IsLoaded(h: Host, key: string, doc: Value) {
    key in h.files && h.files[key].Parsed? && h.files[key].doc == Some(doc) && (doc.List? || doc.Map?)
  }

  lemma WrittenInPlay(h: Host, play: Value, vars: Vars, dir: string, t: Task) returns (l: Leaf)
    requires PlayHasTask(play, t)
    ensures l in LeavesOfPlay(h, play, vars, dir) && l.task == t
    ensures forall k :: k in TaskVars(t) ==> k in l.vars && l.vars[k] == TaskVars(t)[k]
  {
    PlaySections();
    var section :| section in {"pre_tasks", "tasks", "post_tasks", "handlers"}
                   && section in play.fields && play.fields[section].List? && HasTask(play.fields[section].items, t);
    var local := vars + PlayVars(h, play.fields, dir);
    var hops: seq<Hop>, i: nat :| IsTaskAt(play.fields[section].items, hops, i, t);
    l := WrittenIsLeaf(play.fields[section].items, hops, i, t, local);
    assert section in PLAY_SECTIONS && AsItems(Field(play.fields, section)) == play.fields[section].items;
    PlayLeafIff(play.fields, PLAY_SECTIONS, local, l);
  }

  /** Each task of a document that loads is scanned, under its own variables before any others. */
  lemma WrittenInFile(h: Host, key: string, doc: Value, vars: Vars, t: Task) returns (l: Leaf)
    requires IsLoaded(h, key, doc) && DocHasTask(doc, t)
    ensures l in FileLeaves(h, key, vars) && l.task == t
    ensures forall k :: k in TaskVars(t) ==> k in l.vars && l.vars[k] == TaskVars(t)[k]
  {
    var items := if doc.List? then doc.items else [doc];
    BareIff(items);
    assert LoadPlays(h, key) == Ok(items);
    if IsBareTaskList(items) {
      var hops: seq<Hop>, i: nat :| IsTaskAt(items, hops, i, t);
      l := WrittenIsLeaf(items, hops, i, t, vars);
    } else {
      var play :| play in items && PlayHasTask(play, t);
      l := WrittenInPlay(h, play, vars, Dir(key), t);
      PlaysLeafIff(h, items, vars, Dir(key), l);
    }
  }

  lemma LeafOfPlayIsWritten(h: Host, play: Value, vars: Vars, dir: string, l: Leaf)
    requires l in LeavesOfPlay(h, play, vars, dir)
    ensures PlayHasTask(play, l.task)
  {
    var local := vars + PlayVars(h, play.fields, dir);
    PlaySections();
    PlayLeafIff(play.fields, PLAY_SECTIONS, local, l);
    var section :| section in PLAY_SECTIONS && l in ListLeaves(AsItems(Field(play.fields, section)), local);
    LeafIsWritten(AsItems(Field(play.fields, section)), local, l);
  }

  /**
   The tasks that are scanned for a file are exactly those it is written to hold, at
   any depth of blocks; a file that does not load holds none.
   */
  lemma TaskScannedIff(h: Host, key: string, vars: Vars, t: Task)
    ensures (exists l :: l in FileLeaves(h, key, vars) && l.task == t) <==>
            exists doc :: IsLoaded(h, key, doc) && DocHasTask(doc, t)
  {
    if doc :| IsLoaded(h, key, doc) && DocHasTask(doc, t) {
      var l := WrittenInFile(h, key, doc, vars, t);
    }
    if l :| l in FileLeaves(h, key, vars) && l.task == t {
      var doc := h.files[key].doc.value;
      var items := if doc.List? then doc.items else [doc];
      assert IsLoaded(h, key, doc) && LoadPlays(h, key) == Ok(items);
      BareIff(items);
      if IsTaskFile(items) {
        LeafIsWritten(items, vars, l);
      } else {
        PlaysLeafIff(h, items, vars, Dir(key), l);
        var play :| play in items && l in LeavesOfPlay(h, play, vars, Dir(key));
        LeafOfPlayIsWritten(h, play, vars, Dir(key), l);
      }
    }
  }

  // ---- includes ----

  /** Its only include key names `file`, as a text or under "file" in a mapping. */
  ghost predicate Includes(t: Task, file: string) {
    exists key :: key in t && IsIncludeKey(key) && NamesFile(t[key], file)
                  && forall other :: other in t && IsIncludeKey(other) ==> other == key
  }

  predicate NamesFile(v: Value, file: string) {
    v == Text(file) || (v.Map? && "file" in v.fields && v.fields["file"] == Text(file))
  }

  predicate IsIncludeKey(key: string) {
    key in {"import_tasks", "include_tasks", "ansible.builtin.import_tasks", "ansible.builtin.include_tasks"}
  }

  lemma IncludeKeys()
    ensures forall key :: key in INCLUDE_KEYS <==> IsIncludeKey(key)
  {
    assert INCLUDE_KEYS[0] == "import_tasks" && INCLUDE_KEYS[1] == "include_tasks";
    assert INCLUDE_KEYS[2] == "ansible.builtin.import_tasks" && INCLUDE_KEYS[3] == "ansible.builtin.include_tasks";
  }

  lemma {:induction false} OnlyInclude(t: Task, keys: seq<string>, key: string)
    requires key in keys && key in t && forall other :: other in keys && other in t ==> other == key
    requires IncludeOf(t[key]).Some?
    ensures FirstInclude(t, keys) == IncludeOf(t[key]).value
  {
    if keys[0] != key {
      assert keys[0] in keys && keys[0] !in t;
      OnlyInclude(t, keys[1..], key);
    }
  }

  lemma IncludeIsWritten(t: Task, file: string)
    requires Includes(t, file)
    ensures IncludeFile(t) == file
  {
    IncludeKeys();
    var key :| key in t && IsIncludeKey(key) && NamesFile(t[key], file)
               && forall other :: other in t && IsIncludeKey(other) ==> other == key;
    OnlyInclude(t, INCLUDE_KEYS, key);
  }

  lemma NoIncludeIsWritten(t: Task)
    requires forall key :: key in t ==> !IsIncludeKey(key)
    ensures IncludeFile(t) == ""
  {
    IncludeKeys();
    NoIncludes(t, INCLUDE_KEYS);
  }

  /** A relative include in the file `n` of the directory `d` leads to where `d` and it join. */
  lemma RelativeIncludeEdge(h: Host, t: Task, vars: Vars, d: string, n: string, file: string)
    requires Clean(d) == d && IsName(n) && Includes(t, file)
    requires file != "" && !IsAbs(file) && !HasTemplate(file)
    ensures LeafEdges(h, Leaf(t, vars), Dir(Child(d, n))) == {Join(d, file)}
  {
    IncludeIsWritten(t, file);
    SubstituteTemplateFree(file, vars);
    ChildIsInDir(d, n);
    CleanIdempotent(d + "/" + file);
  }

  /** The usual case: a name stands for the file beside the including one. */
  lemma IncludeBeside(h: Host, t: Task, vars: Vars, d: string, n: string, file: string)
    requires Clean(d) == d && IsName(n) && Includes(t, file) && IsName(file) && !HasTemplate(file)
    ensures LeafEdges(h, Leaf(t, vars), Dir(Child(d, n))) == {Child(d, file)}
  {
    assert file[0] in file;
    RelativeIncludeEdge(h, t, vars, d, n, file);
    JoinName(d, file);
  }

  /** And it is scanned: no visited file loses a file that it includes from its own directory. */
  lemma IncludeIsVisited(h: Host, roots: seq<string>, d: string, n: string, doc: Value, t: Task, file: string)
    requires ScanRoots(h, roots, START).Ok? && Child(d, n) in ScanRoots(h, roots, START).value.ctx
    requires IsLoaded(h, Child(d, n), doc) && DocHasTask(doc, t)
    requires Clean(d) == d && IsName(n) && Includes(t, file) && IsName(file) && !HasTemplate(file)
    ensures Child(d, file) in ScanRoots(h, roots, START).value.ctx
  {
    var st := ScanRoots(h, roots, START).value;
    var key := Child(d, n);
    var l := WrittenInFile(h, key, doc, st.ctx[key], t);
    IncludeBeside(h, t, l.vars, d, n, file);
    assert Child(d, file) in EdgesOf(h, key, st.ctx[key]);
    ScanTheorems.ScanIsExact(h, roots);
  }

  /** A root is known by its own path, a relative one by its path from the working directory. */
  lemma RootIsVisited(h: Host, roots: seq<string>, d: string, n: string)
    requires ScanRoots(h, roots, START).Ok? && Clean(d) == d && IsName(n)
    ensures Child(d, n) in roots ==> Child(d, n) in ScanRoots(h, roots, START).value.ctx
    ensures n in roots && h.cwd == d ==> Child(d, n) in ScanRoots(h, roots, START).value.ctx
  {
    JoinName(d, n);
    CleanIdempotent(d + "/" + n);
    ScanTheorems.ScanIsExact(h, roots);
  }

  // ---- managed paths ----

  /** The arguments under which a module keeps its path. */
  predicate IsPathArg(mod: string, arg: string) {
    || (arg == "dest" && mod in {"template", "copy", "assemble", "get_url"})
    || (arg in {"path", "dest"} && mod in {"file", "lineinfile", "blockinfile"})
  }

  /** `key` is the module's name, short or behind that of its collection. */
  ghost predicate Names(key: string, mod: string) {
    key == mod || exists collection :: key == collection + "." + mod
  }

  lemma {:induction false} NoDotBehind(key: string, mod: string)
    requires '.' !in mod && (key == mod || exists collection :: key == collection + "." + mod)
    ensures AfterLastDot(key) == mod
    decreases |mod|
  {
    if mod != "" {
      var init, last := mod[..|mod| - 1], mod[|mod| - 1];
      assert last in mod && key[|key| - 1] == last;
      if collection :| key == collection + "." + mod {
        assert key[..|key| - 1] == collection + "." + init;
      }
      NoDotBehind(key[..|key| - 1], init);
      assert mod == init + [last];
    }
  }

  /** The call a task makes of a file module, with `raw` under the argument that counts. */
  ghost predicate Calls(t: Task, mod: string, arg: string, raw: string) {
    && IsPathArg(mod, arg) && raw != ""
    && exists key :: key in t && Names(key, mod) && t[key].Map? && IsArgs(t[key].fields, mod, arg, raw)
  }

  ghost predicate IsArgs(args: Task, mod: string, arg: string, raw: string) {
    && arg in args && args[arg] == Text(raw)
    && (arg == "dest" && IsPathArg(mod, "path") ==> "path" !in args)
    && !(mod == "file" && "state" in args && args["state"] == Text("absent"))
  }

  lemma ModuleArgs(mod: string, arg: string)
    requires IsPathArg(mod, arg)
    ensures '.' !in mod && mod in FILE_MODULES
    ensures FILE_MODULES[mod] == if IsPathArg(mod, "path") then ["path", "dest"] else ["dest"]
    ensures IsPathArg(mod, "path") <==> mod in {"file", "lineinfile", "blockinfile"}
  {
    assert |"path"| == 4 && |"dest"| == 4 && "path"[0] == 'p' && "dest"[0] == 'd';
  }

  lemma ArgCounts(args: Task, mod: string, arg: string, raw: string)
    requires IsPathArg(mod, arg) && raw != "" && IsArgs(args, mod, arg, raw)
    ensures CallRefs(mod, Map(args)) == {ModulePath(mod, arg, raw)}
  {
    ModuleArgs(mod, arg);
    var list := FILE_MODULES[mod];
    assert TextField(args, arg) == raw;
    assert !IsAbsentState(mod, args) by {
      assert |"absent"| == 6;
    }
    if arg == list[0] {
      assert FirstArg(list, args) == Some(arg);
    } else {
      assert list[1..] == ["dest"] && ["dest"][0] == arg;
      assert TextField(args, "path") == "";
      assert FirstArg(list, args) == Some(arg);
    }
  }

  lemma CallIsRef(t: Task, mod: string, arg: string, raw: string)
    requires Calls(t, mod, arg, raw)
    ensures ModulePath(mod, arg, raw) in TaskRefs(t)
  {
    var key :| key in t && Names(key, mod) && t[key].Map? && IsArgs(t[key].fields, mod, arg, raw);
    ModuleArgs(mod, arg);
    NoDotBehind(key, mod);
    ArgCounts(t[key].fields, mod, arg, raw);
    assert ModulePath(mod, arg, raw) in CallRefs(AfterLastDot(key), t[key]);
  }

  /** What a task of a visited file manages is returned. */
  lemma LeafIsReturned(h: Host, roots: seq<string>, key: string, l: Leaf, r: Ref, p: string)
    requires ScanRoots(h, roots, START).Ok? && key in ScanRoots(h, roots, START).value.ctx
    requires l in FileLeaves(h, key, ScanRoots(h, roots, START).value.ctx[key])
    requires IncludeFile(l.task) == "" && r in TaskRefs(l.task) && p in RefFiles(r, l.vars, LoopItems(l.task))
    ensures p in ScanRoots(h, roots, START).value.files
  {
    var st := ScanRoots(h, roots, START).value;
    ScanTheorems.ScanIsExact(h, roots);
    assert p in LeafFiles(l);
    assert p in FilesOf(h, key, st.ctx[key]);
  }

  lemma PlainPathIsRef(r: Ref, vars: Vars, loop: seq<string>)
    requires IsPlainPath(r.raw) && IsRecordable(r)
    ensures r.raw in RefFiles(r, vars, loop)
  {
    ScanTheorems.PlainPathExpands(r.raw, vars, loop);
    assert [r.raw][0] == r.raw;
  }

  /**
   Each absolute template-free path that a task of a visited file is written to manage
   is returned, at any depth of blocks and whatever else the playbooks hold.
   */
  lemma WrittenPathIsReturned(h: Host, roots: seq<string>, key: string, doc: Value, t: Task, mod: string, arg: string,
                              path: string)
    requires ScanRoots(h, roots, START).Ok? && key in ScanRoots(h, roots, START).value.ctx
    requires IsLoaded(h, key, doc) && DocHasTask(doc, t) && forall k :: k in t ==> !IsIncludeKey(k)
    requires Calls(t, mod, arg, path) && IsAbs(path) && !HasTemplate(path)
    requires mod == "get_url" ==> path[|path| - 1] != '/'
    ensures path in ScanRoots(h, roots, START).value.files
  {
    var l := WrittenInFile(h, key, doc, ScanRoots(h, roots, START).value.ctx[key], t);
    NoIncludeIsWritten(t);
    CallIsRef(t, mod, arg, path);
    var r := ModulePath(mod, arg, path);
    assert IsRecordable(r) by {
      assert HasSuffix(path, "/") ==> path[|path| - 1..][0] == '/';
    }
    PlainPathIsRef(r, l.vars, LoopItems(t));
    LeafIsReturned(h, roots, key, l, r, path);
  }

  /** A command among the keys of a task. */
  ghost predicate RunsCommand(t: Task) {
    exists key, mod :: key in t && mod in {"command", "shell", "script"} && Names(key, mod)
  }

  lemma CommandIsKnown(t: Task)
    requires RunsCommand(t)
    ensures HasCommand(t)
  {
    var key, mod :| key in t && mod in {"command", "shell", "script"} && Names(key, mod);
    NoDotBehind(key, mod);
    assert IsCommandKey(key);
  }

  /** The same for what a command is written to create. */
  lemma WrittenCreatesIsReturned(h: Host, roots: seq<string>, key: string, doc: Value, t: Task, path: string)
    requires ScanRoots(h, roots, START).Ok? && key in ScanRoots(h, roots, START).value.ctx
    requires IsLoaded(h, key, doc) && DocHasTask(doc, t) && forall k :: k in t ==> !IsIncludeKey(k)
    requires RunsCommand(t) && "creates" in t && t["creates"] == Text(path) && IsAbs(path) && !HasTemplate(path)
    ensures path in ScanRoots(h, roots, START).value.files
  {
    var l := WrittenInFile(h, key, doc, ScanRoots(h, roots, START).value.ctx[key], t);
    NoIncludeIsWritten(t);
    CommandIsKnown(t);
    var r := CreatesPath(path);
    assert r in CreatesRefs(t);
    PlainPathIsRef(r, l.vars, LoopItems(t));
    LeafIsReturned(h, roots, key, l, r, path);
  }

  // ---- variables and loops ----

  /** A path with one reference, in the usual spelling, to a variable. */
  function Referring(text: string, name: string, rest: string): string {
    text + ("{{ " + name + " }}" + rest)
  }

  ghost predicate IsBareName(name: string) {
    && name != "" && !IsSpace(name[0]) && !IsSpace(name[|name| - 1])
    && '}' !in name && ' ' !in name && '\n' !in name
  }

  lemma Braceless(p: string)
    requires '{' !in p
    ensures !HasTemplate(p) && !Contains(p, ITEM)
  {
    BraceFree(p);
    if Contains(p, ITEM) {
      ScanTheorems.ItemIsTemplate(p);
    }
  }

  /** Such a path stands for the one with the value in its place. */
  lemma ReferringExpands(text: string, name: string, rest: string, vars: Vars, loop: seq<string>)
    requires IsAbs(text) && '{' !in text && '{' !in rest && IsBareName(name)
    requires name in vars && '{' !in vars[name]
    ensures ExpandPath(Referring(text, name, rest), vars, loop) == [text + (vars[name] + rest)]
  {
    NamedInside(text, name, rest, vars);
    var p := text + (vars[name] + rest);
    Braceless(p);
    assert forall q :: q in [p] ==> q == p;
  }

  lemma ItemOccursAt(text: string, rest: string)
    requires '{' !in text
    ensures forall i: nat :: OccursAt(text + ITEM + rest, ITEM, i) ==> i >= |text|
    ensures Contains(text + ITEM + rest, ITEM)
  {
    var s := text + ITEM + rest;
    assert s[|text|..|text| + |ITEM|] == ITEM;
    assert OccursAt(s, ITEM, |text|);
    ContainsIff(s, ITEM);
    assert forall i :: 0 <= i < |text| ==> text[i] in text && s[i] == text[i];
    forall i: nat | OccursAt(s, ITEM, i)
      ensures s[i] == '{'
    {
      assert s[i..i + |ITEM|][0] == s[i];
    }
  }

  lemma ItemReplaced(text: string, rest: string, item: string)
    requires '{' !in text && '{' !in rest
    ensures ReplaceAll(text + ITEM + rest, ITEM, item) == text + item + rest
  {
    ItemOccursAt(text, rest);
    ReplaceAllFirst(text, ITEM, rest, item);
    Braceless(rest);
    ReplaceAllNothing(rest, ITEM, item);
  }

  /**
   A path that refers to the loop item stands for one path per item, unless a variable
   of that name takes the place of the loop; without items it stays unresolved.
   */
  lemma ItemExpands(text: string, rest: string, vars: Vars, loop: seq<string>)
    requires IsAbs(text) && '{' !in text && '{' !in rest && "item" !in vars && forall x :: x in loop ==> '{' !in x
    ensures ExpandPath(Referring(text, "item", rest), vars, loop)
         == if loop == [] then [""] else seq(|loop|, i requires 0 <= i < |loop| => text + loop[i] + rest)
  {
    var raw := Referring(text, "item", rest);
    assert "{{ " + "item" + " }}" == ITEM && raw == text + ITEM + rest;
    NamedInside(text, "item", rest, vars);
    ItemOccursAt(text, rest);
    var paths := ExpandItems(raw, loop);
    forall i | 0 <= i < |loop|
      ensures paths[i] == text + loop[i] + rest && IsPlainPath(paths[i])
    {
      ItemReplaced(text, rest, loop[i]);
      assert loop[i] in loop;
      Braceless(text + loop[i] + rest);
    }
  }

  /** A scalar as it is written, with its text. */
  predicate IsScalar(v: Value, text: string) {
    v == Text(text) || v == Scalar(text)
  }

  /** A list of scalars with these texts. */
  ghost predicate AreTexts(v: Value, items: seq<string>) {
    v.List? && |v.items| == |items| && forall i :: 0 <= i < |items| ==> IsScalar(v.items[i], items[i])
  }

  lemma {:induction false} TextsRead(values: seq<Value>, items: seq<string>)
    requires |values| == |items| && forall i :: 0 <= i < |items| ==> IsScalar(values[i], items[i])
    ensures ScalarTexts(values) == Some(items)
  {
    if values != [] {
      TextsRead(values[1..], items[1..]);
      assert items == [items[0]] + items[1..];
    }
  }

  /** A loop gives its items; `with_items` gives them where there is no loop. */
  lemma LoopIsRead(t: Task, items: seq<string>)
    requires if "loop" in t then AreTexts(t["loop"], items) else "with_items" in t && AreTexts(t["with_items"], items)
    ensures LoopItems(t) == items
  {
    var v := if "loop" in t then t["loop"] else t["with_items"];
    TextsRead(v.items, items);
  }

  lemma {:induction false} OtherItem(values: seq<Value>, i: nat)
    requires i < |values| && !values[i].Text? && !values[i].Scalar?
    ensures ScalarTexts(values).None?
  {
    if i > 0 {
      OtherItem(values[1..], i - 1);
    }
  }

  /** A task without a loop has no items, and one element that is no scalar makes a loop dynamic as a whole. */
  lemma LoopIsDynamic(t: Task, i: nat)
    requires if "loop" in t then HasOtherItem(t["loop"], i)
             else if "with_items" in t then HasOtherItem(t["with_items"], i) else true
    ensures LoopItems(t) == []
  {
    if "loop" in t || "with_items" in t {
      var v := if "loop" in t then t["loop"] else t["with_items"];
      if v.List? {
        OtherItem(v.items, i);
      }
    }
  }

  /** No list, or one whose `i`-th element is neither text nor number nor truth value. */
  predicate HasOtherItem(v: Value, i: nat) {
    v.List? ==> i < |v.items| && !v.items[i].Text? && !v.items[i].Scalar?
  }

  /** A variable that the task itself gives is put into its paths, whatever else is in force. */
  lemma ReferringPathIsReturned(h: Host, roots: seq<string>, key: string, doc: Value, t: Task, mod: string, arg: string,
                                text: string, name: string, rest: string, value: string)
    requires ScanRoots(h, roots, START).Ok? && key in ScanRoots(h, roots, START).value.ctx
    requires IsLoaded(h, key, doc) && DocHasTask(doc, t) && forall k :: k in t ==> !IsIncludeKey(k)
    requires Calls(t, mod, arg, Referring(text, name, rest)) && mod != "get_url"
    requires "vars" in t && t["vars"].Map? && name in t["vars"].fields && t["vars"].fields[name] == Text(value)
    requires IsAbs(text) && '{' !in text && '{' !in rest && '{' !in value && IsBareName(name)
    ensures text + (value + rest) in ScanRoots(h, roots, START).value.files
  {
    var l := WrittenInFile(h, key, doc, ScanRoots(h, roots, START).value.ctx[key], t);
    NoIncludeIsWritten(t);
    CallIsRef(t, mod, arg, Referring(text, name, rest));
    var r := ModulePath(mod, arg, Referring(text, name, rest));
    assert name in TaskVars(t) && TaskVars(t)[name] == value;
    ReferringExpands(text, name, rest, l.vars, LoopItems(t));
    assert [text + (value + rest)][0] == text + (value + rest);
    assert text + (value + rest) in RefFiles(r, l.vars, LoopItems(t));
    LeafIsReturned(h, roots, key, l, r, text + (value + rest));
  }

  /** Each path of a loop is managed, in the loop's own spelling or the older one. */
  lemma LoopPathsAreManaged(t: Task, vars: Vars, mod: string, arg: string, text: string, rest: string,
                            items: seq<string>, i: nat)
    requires Calls(t, mod, arg, Referring(text, "item", rest)) && mod != "get_url"
    requires if "loop" in t then AreTexts(t["loop"], items) else "with_items" in t && AreTexts(t["with_items"], items)
    requires IsAbs(text) && '{' !in text && '{' !in rest && "item" !in vars && forall x :: x in items ==> '{' !in x
    requires i < |items|
    ensures text + items[i] + rest in TaskFiles(t, vars)
  {
    CallIsRef(t, mod, arg, Referring(text, "item", rest));
    LoopIsRead(t, items);
    ItemExpands(text, rest, vars, items);
    var r := ModulePath(mod, arg, Referring(text, "item", rest));
    var paths := ExpandPath(r.raw, vars, items);
    assert paths[i] == text + items[i] + rest && paths[i] != "";
    assert paths[i] in RefFiles(r, vars, items);
  }

  /** Where a vars file is looked for: beside the playbook by its name, or at an absolute path, cleaned. */
  ghost predicate IsVarsFile(d: string, f: string, key: string) {
    (IsName(f) && key == Child(d, f)) || (IsAbs(f) && key == Clean(f))
  }

  lemma VarsFileIsRead(h: Host, d: string, f: string, key: string, m: Task, k: string, value: string)
    requires Clean(d) == d && IsVarsFile(d, f, key) && key in h.files
    requires h.files[key].Parsed? && h.files[key].asVars == Some(m)
    requires k in m && IsScalar(m[k], value)
    ensures FileValue(h, d, f, k) == Some(value)
  {
    if IsName(f) {
      assert f[0] in f;
      JoinName(d, f);
      CleanIdempotent(d + "/" + f);
    }
    assert ReadVars(h, VarsPath(d, f)) == Ok(m);
  }

  lemma MissingVarsFileIsWarned(h: Host, d: string, f: string, files: seq<string>)
    requires Clean(d) == d && IsName(f) && f in files
    requires Child(d, f) !in h.files || h.files[Child(d, f)].Unreadable?
    ensures VarsUnreadable(Child(d, f)) in VarsWarnings(h, d, files)
  {
    if files[0] == f {
      assert f[0] in f;
      JoinName(d, f);
      CleanIdempotent(d + "/" + f);
    } else {
      MissingVarsFileIsWarned(h, d, f, files[1..]);
    }
  }

  /** A play gives a variable the value of the last usable vars file that has it, else its own. */
  lemma PlayVarIsRead(h: Host, play: Task, dir: string, files: seq<string>, k: string, value: string)
    requires "vars_files" in play && AreTexts(play["vars_files"], files)
    ensures (exists i :: IsLastValue(h, dir, files, i, k, value)) ==> At(PlayVars(h, play, dir), k) == Some(value)
    ensures (forall f :: f in files ==> FileValue(h, dir, f, k).None?)
            && "vars" in play && play["vars"].Map?
            && k in play["vars"].fields && IsScalar(play["vars"].fields[k], value)
            ==> At(PlayVars(h, play, dir), k) == Some(value)
  {
    TextsRead(play["vars_files"].items, files);
    var own := ScalarEntries(AsFields(Field(play, "vars")));
    if i :| IsLastValue(h, dir, files, i, k, value) {
      LastFileWins(h, dir, files, own, k, i);
    }
    if forall f :: f in files ==> FileValue(h, dir, f, k).None? {
      UndefinedIsKept(h, dir, files, own, k);
    }
  }

  ghost predicate IsLastValue(h: Host, dir: string, files: seq<string>, i: nat, k: string, value: string) {
    && i < |files| && FileValue(h, dir, files[i], k) == Some(value)
    && forall f :: f in files[i + 1..] ==> FileValue(h, dir, f, k).None?
  }

  /** What warnings call a task. */
  predicate IsCalled(t: Task, name: string) {
    if "name" in t then t["name"] == Text(name) && name != "" else name == "unnamed"
  }

  /** A relative path is warned about, under the name of its task. */
  lemma RelativePathIsWarned(t: Task, vars: Vars, name: string, mod: string, arg: string, raw: string)
    requires Calls(t, mod, arg, raw) && IsCalled(t, name) && !IsAbs(raw) && !HasTemplate(raw)
    ensures Unresolved(name, mod, arg, raw) in TaskWarnings(t, vars)
  {
    CallIsRef(t, mod, arg, raw);
    var r := ModulePath(mod, arg, raw);
    assert DisplayName(t) == name;
    ScanTheorems.PlainPathExpands(raw, vars, LoopItems(t));
    assert [""][0] == "";
    assert Unresolved(name, mod, arg, raw) in RefWarnings(name, r, vars, LoopItems(t));
  }

  // ---- one-line commands ----

  /** What separates the words of a command: a space, a tab, a new line, a carriage return or a form feed. */
  predicate Separates(c: char) {
    c as int in {9, 10, 12, 13, 32}
  }

  lemma {:induction false} WordEnds(word: string, rest: string)
    requires forall c :: c in word ==> !Separates(c)
    requires rest == "" || Separates(rest[0])
    ensures LeadingWord(word + rest) == word
  {
    if word == "" {
      assert word + rest == rest;
    } else {
      assert word[0] in word && (word + rest)[1..] == word[1..] + rest;
      WordEnds(word[1..], rest);
      assert word == [word[0]] + word[1..];
    }
  }

  lemma {:induction false} CreatesBehind(front: string, sep: char, tail: string, start: bool)
    requires '=' !in front && Separates(sep)
    ensures CreatesArg(front + [sep] + tail, start) == CreatesArg(tail, true)
  {
    var s := front + [sep] + tail;
    NoCreatesAtFront(front, sep, tail);
    if front == "" {
      assert s[0] == sep && s[1..] == tail;
    } else {
      assert s[1..] == front[1..] + [sep] + tail;
      CreatesBehind(front[1..], sep, tail, IsPatternSpace(s[0]));
    }
  }

  lemma NoCreatesAtFront(front: string, sep: char, tail: string)
    requires '=' !in front && Separates(sep)
    ensures !HasPrefix(front + [sep] + tail, "creates=")
  {
    var s, word := front + [sep] + tail, "creates=";
    assert |word| == 8 && word[7] == '=' && forall i :: 0 <= i < 8 ==> !Separates(word[i]);
    var k := if |front| < 8 then |front| else 7;
    assert s[k] == (if |front| < 8 then sep else front[7]);
    assert |front| >= 8 ==> front[7] in front;
    assert |s| >= 8 ==> s[..8][k] == s[k];
    assert s[k] != word[k];
  }

  /** The word behind `creates=` in a command is found, up to the next separator. */
  lemma CreatesIsRead(front: string, sep: char, word: string, rest: string)
    requires '=' !in front && Separates(sep)
    requires word != "" && (forall c :: c in word ==> !Separates(c)) && (rest == "" || Separates(rest[0]))
    ensures CreatesArg(front + [sep] + ("creates=" + (word + rest)), true) == Some(word)
    ensures CreatesArg("creates=" + (word + rest), true) == Some(word)
  {
    var tail := "creates=" + (word + rest);
    CreatesBehind(front, sep, tail, true);
    assert tail[..8] == "creates=" && tail[8..] == word + rest;
    WordEnds(word, rest);
  }

  lemma LineIsRef(t: Task, call: string, mod: string, front: string, path: string, rest: string)
    requires call in t && mod in {"command", "shell", "script"} && Names(call, mod)
    requires t[call] == Text(front + [' '] + ("creates=" + (path + rest))) && '=' !in front
    requires path != "" && (forall c :: c in path ==> !Separates(c)) && (rest == "" || Separates(rest[0]))
    ensures CreatesPath(path) in TaskRefs(t)
  {
    NoDotBehind(call, mod);
    CreatesIsRead(front, ' ', path, rest);
    assert CreatesPath(path) in KeyCreates(call, t[call]);
    assert CreatesPath(path) in LineCreates(t);
  }

  /** A path created by a one-line command is returned. */
  lemma WrittenLineIsReturned(h: Host, roots: seq<string>, key: string, doc: Value, t: Task, call: string, mod: string,
                              front: string, path: string, rest: string)
    requires ScanRoots(h, roots, START).Ok? && key in ScanRoots(h, roots, START).value.ctx
    requires IsLoaded(h, key, doc) && DocHasTask(doc, t) && forall k :: k in t ==> !IsIncludeKey(k)
    requires call in t && mod in {"command", "shell", "script"} && Names(call, mod)
    requires t[call] == Text(front + [' '] + ("creates=" + (path + rest))) && '=' !in front
    requires IsAbs(path) && !HasTemplate(path) && forall c :: c in path ==> !Separates(c)
    requires rest == "" || Separates(rest[0])
    ensures path in ScanRoots(h, roots, START).value.files
  {
    var l := WrittenInFile(h, key, doc, ScanRoots(h, roots, START).value.ctx[key], t);
    NoIncludeIsWritten(t);
    LineIsRef(t, call, mod, front, path, rest);
    PlainPathIsRef(CreatesPath(path), l.vars, LoopItems(t));
    LeafIsReturned(h, roots, key, l, CreatesPath(path), path);
  }

  // ---- includes that do not load ----

  /** Why a file does not load. */
  ghost predicate FailsAs(h: Host, key: string, f: Failure) {
    match f
    case ReadFailed => key !in h.files || h.files[key] == Unreadable
    case ParseFailed => key in h.files && h.files[key].Parsed? && h.files[key].doc == None
    case NotAPlayList =>
      && key in h.files && h.files[key].Parsed? && h.files[key].doc.Some?
      && !h.files[key].doc.value.List? && !h.files[key].doc.value.Map?
  }

  /** The first include of a file that does not load is warned about with the reason. */
  lemma BadIncludeIsWarned(h: Host, t: Task, vars: Vars, d: string, n: string, file: string, name: string, f: Failure,
                           st: State)
    requires Clean(d) == d && IsName(n) && Includes(t, file) && IsName(file) && !HasTemplate(file) && IsCalled(t, name)
    requires Child(d, file) !in st.ctx && FailsAs(h, Child(d, file), f)
    ensures IncludeFailed(name, Child(d, file), f) in ScanLeaf(h, Leaf(t, vars), Dir(Child(d, n)), st).warnings
  {
    IncludeIsWritten(t, file);
    SubstituteTemplateFree(file, vars);
    ChildIsInDir(d, n);
    assert file[0] in file;
    JoinName(d, file);
    CleanIdempotent(d + "/" + file);
    assert DisplayName(t) == name;
    assert LoadPlays(h, Child(d, file)) == Err(f);
  }
}
