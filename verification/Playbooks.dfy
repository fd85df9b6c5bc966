/**
 What the playbook scanner computes, on values. A parsed YAML document is a tree,
 the file system a map from absolute path to parse result, and a scan is a fold
 over the leaf tasks of each file: the tasks left once block, rescue and always
 are flattened, each with the variables in force there.
 */
module Playbooks {
  import opened Wrappers
  import opened Text
  import opened Paths
  import opened Templates

  /** `Scalar` is a YAML int, float or bool with its formatted text. */
  datatype Value =
    | Null
    | Text(s: string)
    | Scalar(text: string)
    | Other
    | List(items: seq<Value>)
    | Map(fields: map<string, Value>)

  type Task = map<string, Value>

  /** A file as the two YAML decoders see it: as any value, and as a vars mapping. */
  datatype Source = Unreadable | Parsed(doc: Option<Value>, asVars: Option<Task>)

  datatype Host = Host(cwd: string, files: map<string, Source>)

  datatype Failure = ReadFailed | ParseFailed | NotAPlayList

  datatype Warning =
    | VarsUnreadable(path: string)
    | VarsUnparseable(path: string)
    | DynamicInclude(task: string, target: string)
    | IncludeFailed(task: string, path: string, failure: Failure)
    | NotAMapping(task: string, mod: string)
    | AbsentState(task: string)
    | Unresolved(task: string, mod: string, arg: string, raw: string)
    | GetUrlDirectory(task: string, path: string)
    | CreatesUnresolved(task: string, raw: string)
    | RemovesPath(task: string, raw: string)

  const FILE_MODULES: map<string, seq<string>> := map[
    "template" := ["dest"],
    "copy" := ["dest"],
    "file" := ["path", "dest"],
    "lineinfile" := ["path", "dest"],
    "blockinfile" := ["path", "dest"],
    "assemble" := ["dest"],
    "get_url" := ["dest"]
  ]
  const COMMAND_MODULES := {"command", "shell", "script"}
  const PLAY_SECTIONS := ["pre_tasks", "tasks", "post_tasks", "handlers"]
  const BLOCK_SECTIONS := ["block", "rescue", "always"]
  const INCLUDE_KEYS :=
    ["import_tasks", "include_tasks", "ansible.builtin.import_tasks", "ansible.builtin.include_tasks"]
  const ITEM := "{{ item }}"

  // ---- scalars and variables ----

  function ScalarText(v: Value): Option<string> {
    match v
    case Text(s) => Some(s)
    case Scalar(t) => Some(t)
    case _ => None
  }

  function ScalarEntries(m: Task): Vars {
    map k | k in m && ScalarText(m[k]).Some? :: ScalarText(m[k]).value
  }

  function Field(m: Task, key: string): Value {
    if key in m then m[key] else Null
  }

  function TextField(m: Task, key: string): string {
    match Field(m, key)
    case Text(s) => s
    case _ => ""
  }

  function AsFields(v: Value): Task {
    if v.Map? then v.fields else map[]
  }

  function AsItems(v: Value): seq<Value> {
    if v.List? then v.items else []
  }

  /** The scalar texts of a list, or None when an element is no scalar. */
  function ScalarTexts(items: seq<Value>): Option<seq<string>> {
    if items == [] then Some([])
    else match (ScalarText(items[0]), ScalarTexts(items[1..]))
      case (Some(t), Some(rest)) => Some([t] + rest)
      case _ => None
  }

  function StringList(v: Value): seq<string> {
    match ScalarTexts(AsItems(v))
    case Some(l) => l
    case None => []
  }

  function TaskVars(task: Task): Vars {
    ScalarEntries(AsFields(Field(task, "vars")))
  }

  function LoopItems(task: Task): seq<string> {
    StringList(if "loop" in task then task["loop"] else Field(task, "with_items"))
  }

  function DisplayName(task: Task): string {
    var n := TextField(task, "name");
    if n != "" then n else "unnamed"
  }

  function VarsPath(dir: string, f: string): string {
    if IsAbs(f) then f else Join(dir, f)
  }

  function ReadVars(h: Host, path: string): Result<Task, Warning> {
    var key := Abs(h.cwd, path);
    if key !in h.files || h.files[key].Unreadable? then Err(VarsUnreadable(path))
    else match h.files[key].asVars
      case None => Err(VarsUnparseable(path))
      case Some(m) => Ok(m)
  }

  /** Later files win, and every file wins over what came before the list. */
  function LoadVars(h: Host, dir: string, files: seq<string>, vars: Vars): Vars
    decreases |files|
  {
    if files == [] then vars
    else match ReadVars(h, VarsPath(dir, files[0]))
      case Ok(m) => LoadVars(h, dir, files[1..], vars + ScalarEntries(m))
      case Err(_) => LoadVars(h, dir, files[1..], vars)
  }

  /** The value a vars file gives to `k`: none when the file is unusable or holds no scalar there. */
  function FileValue(h: Host, dir: string, f: string, k: string): Option<string> {
    match ReadVars(h, VarsPath(dir, f))
    case Err(_) => None
    case Ok(m) => At(ScalarEntries(m), k)
  }

  lemma {:induction false} LoadVarsAppend(h: Host, dir: string, a: seq<string>, b: seq<string>, vars: Vars)
    ensures LoadVars(h, dir, a + b, vars) == LoadVars(h, dir, b, LoadVars(h, dir, a, vars))
    decreases |a|
  {
    if a == [] {
      assert a + b == b;
    } else {
      assert (a + b)[0] == a[0] && (a + b)[1..] == a[1..] + b;
      match ReadVars(h, VarsPath(dir, a[0])) {
        case Ok(m) => LoadVarsAppend(h, dir, a[1..], b, vars + ScalarEntries(m));
        case Err(_) => LoadVarsAppend(h, dir, a[1..], b, vars);
      }
    }
  }

  /** Files that do not define a variable leave it as it was. */
  lemma {:induction false} UndefinedIsKept(h: Host, dir: string, files: seq<string>, vars: Vars, k: string)
    requires forall f :: f in files ==> FileValue(h, dir, f, k).None?
    ensures At(LoadVars(h, dir, files, vars), k) == At(vars, k)
    decreases |files|
  {
    if files != [] {
      assert FileValue(h, dir, files[0], k).None?;
      match ReadVars(h, VarsPath(dir, files[0])) {
        case Ok(m) => UndefinedIsKept(h, dir, files[1..], vars + ScalarEntries(m), k);
        case Err(_) => UndefinedIsKept(h, dir, files[1..], vars, k);
      }
    }
  }

  /** A variable gets its value from the last usable file that defines it. */
  lemma LastFileWins(h: Host, dir: string, files: seq<string>, vars: Vars, k: string, i: nat)
    requires i < |files| && FileValue(h, dir, files[i], k).Some?
    requires forall f :: f in files[i + 1..] ==> FileValue(h, dir, f, k).None?
    ensures At(LoadVars(h, dir, files, vars), k) == FileValue(h, dir, files[i], k)
  {
    var before := LoadVars(h, dir, files[..i], vars);
    assert files == files[..i] + files[i..];
    LoadVarsAppend(h, dir, files[..i], files[i..], vars);
    LastOfTail(h, dir, files[i..], before, k) by {
      assert files[i..][0] == files[i] && files[i..][1..] == files[i + 1..];
    }
  }

  lemma LastOfTail(h: Host, dir: string, files: seq<string>, vars: Vars, k: string)
    requires files != [] && FileValue(h, dir, files[0], k).Some?
    requires forall f :: f in files[1..] ==> FileValue(h, dir, f, k).None?
    ensures At(LoadVars(h, dir, files, vars), k) == FileValue(h, dir, files[0], k)
  {
    UndefinedIsKept(h, dir, files[1..], vars + ScalarEntries(ReadVars(h, VarsPath(dir, files[0])).value), k);
  }

  function PlayVars(h: Host, play: Task, dir: string): Vars {
    LoadVars(h, dir, StringList(Field(play, "vars_files")), ScalarEntries(AsFields(Field(play, "vars"))))
  }

  function VarsWarnings(h: Host, dir: string, files: seq<string>): set<Warning> {
    if files == [] then {}
    else (match ReadVars(h, VarsPath(dir, files[0])) case Ok(_) => {} case Err(w) => {w})
         + VarsWarnings(h, dir, files[1..])
  }

  function PlayWarnings(h: Host, play: Task, dir: string): set<Warning> {
    VarsWarnings(h, dir, StringList(Field(play, "vars_files")))
  }

  // ---- paths a task manages ----

  datatype Ref = ModulePath(mod: string, arg: string, raw: string) | CreatesPath(raw: string)

  function FirstArg(args: seq<string>, fields: Task): Option<string> {
    if args == [] then None
    else if TextField(fields, args[0]) != "" then Some(args[0])
    else FirstArg(args[1..], fields)
  }

  predicate IsAbsentState(mod: string, fields: Task) {
    mod == "file" && TextField(fields, "state") == "absent"
  }

  /** The path reference a module call holds: at most one, under the first argument present. */
  function CallRefs(mod: string, v: Value): set<Ref> {
    if mod !in FILE_MODULES || !v.Map? || IsAbsentState(mod, v.fields) then {}
    else match FirstArg(FILE_MODULES[mod], v.fields)
      case None => {}
      case Some(arg) => {ModulePath(mod, arg, TextField(v.fields, arg))}
  }

  function CallWarnings(name: string, mod: string, v: Value): set<Warning> {
    if mod !in FILE_MODULES then {}
    else if !v.Map? then {NotAMapping(name, mod)}
    else if IsAbsentState(mod, v.fields) then {AbsentState(name)}
    else {}
  }

  predicate IsPatternSpace(c: char) {
    c in " \t\n\r" || c == '\U{C}'
  }

  function LeadingWord(s: string): (w: string)
    ensures HasPrefix(s, w) && forall c :: c in w ==> !IsPatternSpace(c)
    ensures |w| < |s| ==> IsPatternSpace(s[|w|])
  {
    if s == "" || IsPatternSpace(s[0]) then "" else [s[0]] + LeadingWord(s[1..])
  }

  /** The first non-empty `creates=` word that starts `s` or follows a space. */
  function CreatesArg(s: string, start: bool): (r: Option<string>)
    ensures r.Some? ==> r.value != "" && forall c :: c in r.value ==> !IsPatternSpace(c)
  {
    if start && HasPrefix(s, "creates=") && LeadingWord(s[|"creates="|..]) != "" then
      Some(LeadingWord(s[|"creates="|..]))
    else if s == "" then None
    else CreatesArg(s[1..], IsPatternSpace(s[0]))
  }

  /** A non-empty `creates=` word at position `i`: what the pattern matches there. */
  ghost predicate CreatesAt(s: string, start: bool, i: nat) {
    && i + 8 < |s| && s[i..i + 8] == "creates=" && !IsPatternSpace(s[i + 8])
    && if i == 0 then start else IsPatternSpace(s[i - 1])
  }

  lemma CreatesAtFront(s: string, start: bool)
    ensures CreatesAt(s, start, 0) <==> start && HasPrefix(s, "creates=") && LeadingWord(s[8..]) != ""
  {
    if |s| >= 8 {
      assert s[0..8] == s[..8];
      assert |s| > 8 ==> s[8..][0] == s[8];
    }
  }

  lemma CreatesAtTail(s: string, start: bool, i: nat)
    requires s != ""
    ensures CreatesAt(s, start, i + 1) <==> CreatesAt(s[1..], IsPatternSpace(s[0]), i)
  {
    if i + 9 < |s| {
      assert s[i + 1..i + 9] == s[1..][i..i + 8];
    }
  }

  /** The word found is the leftmost match, and none is found only when nothing matches. */
  lemma {:induction false} CreatesArgIsFirst(s: string, start: bool)
    ensures CreatesArg(s, start).None? ==> forall i: nat :: !CreatesAt(s, start, i)
    ensures CreatesArg(s, start).Some? ==>
              exists i: nat :: CreatesAt(s, start, i) && (forall j: nat :: j < i ==> !CreatesAt(s, start, j))
                               && CreatesArg(s, start).value == LeadingWord(s[i + 8..])
  {
    CreatesAtFront(s, start);
    if s != "" && !CreatesAt(s, start, 0) {
      CreatesArgIsFirst(s[1..], IsPatternSpace(s[0]));
      forall i: nat
        ensures CreatesAt(s, start, i + 1) <==> CreatesAt(s[1..], IsPatternSpace(s[0]), i)
      {
        CreatesAtTail(s, start, i);
      }
      if CreatesArg(s, start).Some? {
        var i: nat :| CreatesAt(s[1..], IsPatternSpace(s[0]), i)
                      && (forall j: nat :: j < i ==> !CreatesAt(s[1..], IsPatternSpace(s[0]), j))
                      && CreatesArg(s, start).value == LeadingWord(s[1..][i + 8..]);
        assert s[i + 1 + 8..] == s[1..][i + 8..];
        assert CreatesAt(s, start, i + 1);
        forall j: nat | j < i + 1
          ensures !CreatesAt(s, start, j)
        {
          if j > 0 { CreatesAtTail(s, start, j - 1); }
        }
      } else {
        forall i: nat
          ensures !CreatesAt(s, start, i)
        {
          if i > 0 { CreatesAtTail(s, start, i - 1); }
        }
      }
    }
  }

  predicate IsCommandKey(key: string) {
    AfterLastDot(key) in COMMAND_MODULES
  }

  predicate HasCommand(task: Task) {
    exists key :: key in task && IsCommandKey(key)
  }

  function KeyCreates(key: string, v: Value): set<Ref> {
    if IsCommandKey(key) && v.Text? && CreatesArg(v.s, true).Some? then {CreatesPath(CreatesArg(v.s, true).value)}
    else {}
  }

  /** The `creates` field of the task, when there is one. */
  function FieldCreates(task: Task): set<Ref> {
    if TextField(task, "creates") != "" then {CreatesPath(TextField(task, "creates"))} else {}
  }

  /** The `creates=` words of its one-line commands. */
  function LineCreates(task: Task): set<Ref> {
    set key, r | key in task && r in KeyCreates(key, task[key]) :: r
  }

  function CreatesRefs(task: Task): set<Ref> {
    if !HasCommand(task) then {}
    else FieldCreates(task) + LineCreates(task)
  }

  function CallsRefs(task: Task, keys: set<string>): set<Ref> {
    set key, r | key in keys && key in task && r in CallRefs(AfterLastDot(key), task[key]) :: r
  }

  function CallsWarnings(name: string, task: Task, keys: set<string>): set<Warning> {
    set key, w | key in keys && key in task && w in CallWarnings(name, AfterLastDot(key), task[key]) :: w
  }

  function ModuleRefs(task: Task): set<Ref> {
    CallsRefs(task, task.Keys)
  }

  function TaskRefs(task: Task): set<Ref> {
    ModuleRefs(task) + CreatesRefs(task)
  }

  predicate IsPlainPath(p: string) {
    IsAbs(p) && !HasTemplate(p)
  }

  function ExpandItems(sub: string, loop: seq<string>): (r: seq<string>)
    ensures |r| == |loop|
    ensures forall k :: 0 <= k < |loop| ==> r[k] == ReplaceAll(sub, ITEM, loop[k])
  {
    if loop == [] then [] else [ReplaceAll(sub, ITEM, loop[0])] + ExpandItems(sub, loop[1..])
  }

  /** The paths `raw` stands for, or [""] when one of them cannot be resolved. */
  function ExpandPath(raw: string, vars: Vars, loop: seq<string>): (r: seq<string>)
    ensures r == [""] || (r != [] && forall p :: p in r ==> IsPlainPath(p))
  {
    var sub := Substitute(raw, vars);
    var paths := if Contains(sub, ITEM) then ExpandItems(sub, loop) else [sub];
    if paths != [] && forall p :: p in paths ==> IsPlainPath(p) then paths else [""]
  }

  /** A directory given to get_url hides the file name. */
  predicate IsRecordable(r: Ref) {
    !(r.ModulePath? && r.mod == "get_url" && HasSuffix(r.raw, "/"))
  }

  function RefPaths(r: Ref, vars: Vars, loop: seq<string>): set<string> {
    set p | p in ExpandPath(r.raw, vars, loop) && p != ""
  }

  function RefFiles(r: Ref, vars: Vars, loop: seq<string>): set<string> {
    if IsRecordable(r) then RefPaths(r, vars, loop) else {}
  }

  function RefWarnings(name: string, r: Ref, vars: Vars, loop: seq<string>): set<Warning> {
    if "" in ExpandPath(r.raw, vars, loop) then
      {match r
       case ModulePath(mod, arg, raw) => Unresolved(name, mod, arg, raw)
       case CreatesPath(raw) => CreatesUnresolved(name, raw)}
    else if IsRecordable(r) then {}
    else set p | p in RefPaths(r, vars, loop) :: GetUrlDirectory(name, p)
  }

  function RemovesWarnings(task: Task): set<Warning> {
    if HasCommand(task) && TextField(task, "removes") != ""
    then {RemovesPath(DisplayName(task), TextField(task, "removes"))} else {}
  }

  function RefsFiles(refs: set<Ref>, vars: Vars, loop: seq<string>): set<string> {
    set r, p | r in refs && p in RefFiles(r, vars, loop) :: p
  }

  function RefsWarnings(name: string, refs: set<Ref>, vars: Vars, loop: seq<string>): set<Warning> {
    set r, w | r in refs && w in RefWarnings(name, r, vars, loop) :: w
  }

  function TaskFiles(task: Task, vars: Vars): set<string> {
    RefsFiles(TaskRefs(task), vars, LoopItems(task))
  }

  function TaskWarnings(task: Task, vars: Vars): set<Warning> {
    RefsWarnings(DisplayName(task), TaskRefs(task), vars, LoopItems(task))
    + CallsWarnings(DisplayName(task), task, task.Keys)
    + RemovesWarnings(task)
  }

  // ---- leaf tasks ----

  datatype Leaf = Leaf(task: Task, vars: Vars)

  predicate IsBlock(task: Task) {
    Field(task, "block").List? || Field(task, "rescue").List? || Field(task, "always").List?
  }

  function ListLeaves(items: seq<Value>, vars: Vars): seq<Leaf>
    decreases items, 1
  {
    if items == [] then [] else ItemLeaves(items[0], vars) + ListLeaves(items[1..], vars)
  }

  function ItemLeaves(item: Value, vars: Vars): seq<Leaf>
    decreases item
  {
    if !item.Map? then []
    else
      var local := vars + TaskVars(item.fields);
      if !IsBlock(item.fields) then [Leaf(item.fields, local)]
      else
        SectionLeaves(item, "block", local) + SectionLeaves(item, "rescue", local)
        + SectionLeaves(item, "always", local)
  }

  function SectionLeaves(item: Value, section: string, vars: Vars): seq<Leaf>
    requires item.Map?
    decreases item, 0
  {
    if section in item.fields && item.fields[section].List? then ListLeaves(item.fields[section].items, vars) else []
  }
}
