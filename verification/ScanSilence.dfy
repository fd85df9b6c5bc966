/** When a scanned task leaves no trace, against the promise that nothing is dropped silently. */
module ScanSilence {
  import opened Wrappers
  import opened Text
  import opened Templates
  import opened Playbooks
  import opened Scan
  import opened ScanTheorems

  /** A module call with no path argument to record and nothing to warn about. */
  predicate IsSilentCall(mod: string, v: Value) {
    mod in FILE_MODULES ==>
      && v.Map? && !IsAbsentState(mod, v.fields)
      && forall arg :: arg in FILE_MODULES[mod] ==> TextField(v.fields, arg) == ""
  }

  /** Neither `creates` nor `removes`, and no `creates=` word in a one-line command. */
  predicate IsSilentCommand(task: Task) {
    && TextField(task, "creates") == "" && TextField(task, "removes") == ""
    && forall key :: key in task && IsCommandKey(key) && task[key].Text? ==> CreatesArg(task[key].s, true).None?
  }

  lemma {:induction false} FirstArgIff(args: seq<string>, fields: Task)
    ensures FirstArg(args, fields).None? <==> forall arg :: arg in args ==> TextField(fields, arg) == ""
  {
    if args != [] {
      FirstArgIff(args[1..], fields);
      assert forall arg :: arg in args <==> arg == args[0] || arg in args[1..];
    }
  }

  lemma SilentCallIff(name: string, mod: string, v: Value)
    ensures IsSilentCall(mod, v) <==> CallRefs(mod, v) == {} && CallWarnings(name, mod, v) == {}
  {
    if mod in FILE_MODULES && v.Map? {
      FirstArgIff(FILE_MODULES[mod], v.fields);
      assert IsAbsentState(mod, v.fields) ==> CallWarnings(name, mod, v) == {AbsentState(name)};
    }
  }

  lemma SilentCallsIff(name: string, task: Task)
    ensures ModuleRefs(task) == {} && CallsWarnings(name, task, task.Keys) == {} <==>
            forall key :: key in task ==> IsSilentCall(AfterLastDot(key), task[key])
  {
    forall key | key in task
      ensures CallRefs(AfterLastDot(key), task[key]) <= ModuleRefs(task)
      ensures CallWarnings(name, AfterLastDot(key), task[key]) <= CallsWarnings(name, task, task.Keys)
      ensures IsSilentCall(AfterLastDot(key), task[key]) <==>
              CallRefs(AfterLastDot(key), task[key]) == {} && CallWarnings(name, AfterLastDot(key), task[key]) == {}
    {
      SilentCallIff(name, AfterLastDot(key), task[key]);
    }
  }

  lemma NoLineCreatesIff(task: Task)
    ensures LineCreates(task) == {} <==>
            forall key :: key in task && IsCommandKey(key) && task[key].Text? ==> CreatesArg(task[key].s, true).None?
  {
    if LineCreates(task) == {} {
      forall key | key in task && IsCommandKey(key) && task[key].Text?
        ensures CreatesArg(task[key].s, true).None?
      {
        assert KeyCreates(key, task[key]) <= LineCreates(task);
      }
    } else {
      var r :| r in LineCreates(task);
      var key :| key in task && r in KeyCreates(key, task[key]);
    }
  }

  lemma SilentCommandIff(task: Task)
    requires HasCommand(task)
    ensures CreatesRefs(task) == {} && RemovesWarnings(task) == {} <==> IsSilentCommand(task)
  {
    NoLineCreatesIff(task);
    assert FieldCreates(task) == {} <==> TextField(task, "creates") == "";
    assert CreatesRefs(task) == {} <==> FieldCreates(task) == {} && LineCreates(task) == {};
  }

  /** References and warnings of the calls are all that makes a task show. */
  lemma ShowsIff(task: Task, vars: Vars)
    ensures TaskFiles(task, vars) == {} && TaskWarnings(task, vars) == {} <==>
            && TaskRefs(task) == {}
            && CallsWarnings(DisplayName(task), task, task.Keys) == {}
            && RemovesWarnings(task) == {}
  {
    var name, loop := DisplayName(task), LoopItems(task);
    forall r | r in TaskRefs(task)
      ensures RefFiles(r, vars, loop) <= TaskFiles(task, vars)
              && RefWarnings(name, r, vars, loop) <= TaskWarnings(task, vars)
      ensures RefFiles(r, vars, loop) != {} || RefWarnings(name, r, vars, loop) != {}
    {
      RefNeverDropped(name, r, vars, loop);
    }
  }

  /** Its file modules have a mapping with nothing to record, and its commands name no path. */
  predicate IsSilentTask(task: Task) {
    && (forall key :: key in task ==> IsSilentCall(AfterLastDot(key), task[key]))
    && (HasCommand(task) ==> IsSilentCommand(task))
  }

  lemma SilentCallsAndCommandsIff(task: Task, vars: Vars)
    ensures TaskFiles(task, vars) == {} && TaskWarnings(task, vars) == {} <==> IsSilentTask(task)
  {
    ShowsIff(task, vars);
    SilentCallsIff(DisplayName(task), task);
    if HasCommand(task) {
      SilentCommandIff(task);
    }
    assert TaskRefs(task) == {} <==> ModuleRefs(task) == {} && CreatesRefs(task) == {};
  }

  /**
   When a leaf task leaves no trace at all, neither a file nor a warning. One that
   includes a file does exactly when the include can be followed, whatever calls stand
   beside it. Any other does exactly when each of its file modules has a mapping
   without a non-empty text under its path arguments, and a command among its keys
   names no created or removed path.
   */
  lemma SilentIff(l: Leaf, dir: string)
    ensures LeafFiles(l) == {} && LeafWarnings(l, dir) == {} <==>
            if IncludeFile(l.task) != "" then !HasTemplate(Substitute(IncludeFile(l.task), l.vars))
            else IsSilentTask(l.task)
  {
    SilentCallsAndCommandsIff(l.task, l.vars);
  }

  /** Beside an include nothing but the name of the task is looked at: calls there are dropped silently. */
  lemma IncludeHides(task: Task, key: string, vars: Vars, h: Host, dir: string)
    requires IncludeFile(task) != "" && key !in INCLUDE_KEYS && key != "name"
    ensures var l, without := Leaf(task, vars), Leaf(task - {key}, vars);
            && LeafFiles(l) == LeafFiles(without)
            && LeafWarnings(l, dir) == LeafWarnings(without, dir)
            && LeafEdges(h, l, dir) == LeafEdges(h, without, dir)
  {
    SameIncludes(task, task - {key}, INCLUDE_KEYS);
    assert Field(task - {key}, "name") == Field(task, "name");
    SameTarget(task, task - {key}, vars, dir);
  }

  /** Nor is anything but the sections and the variables of a block. */
  lemma BlockHides(fields: Task, key: string, vars: Vars)
    requires IsBlock(fields) && key !in {"block", "rescue", "always", "vars"}
    ensures ItemLeaves(Map(fields - {key}), vars) == ItemLeaves(Map(fields), vars)
  {
    var less := fields - {key};
    assert Field(less, "block") == Field(fields, "block") && Field(less, "rescue") == Field(fields, "rescue");
    assert Field(less, "always") == Field(fields, "always") && Field(less, "vars") == Field(fields, "vars");
  }

  predicate IsTextless(fields: Task) {
    forall arg :: arg in fields ==> !fields[arg].Text?
  }

  lemma TextlessFields(fields: Task, name: string)
    requires IsTextless(fields)
    ensures TextField(fields, name) == ""
  {
  }

  lemma TextlessCall(mod: string, fields: Task)
    requires IsTextless(fields)
    ensures IsSilentCall(mod, Map(fields))
  {
    TextlessFields(fields, "state");
    assert "absent" != "";
    forall arg | mod in FILE_MODULES && arg in FILE_MODULES[mod]
      ensures TextField(fields, arg) == ""
    {
      TextlessFields(fields, arg);
    }
  }

  /** Only calls, with no text among their arguments: a destination, say, that YAML reads as a number. */
  lemma TextlessIsSilent(task: Task, vars: Vars)
    requires IsTextless(task) && forall key :: key in task ==> task[key].Map? && IsTextless(task[key].fields)
    ensures TaskFiles(task, vars) == {} && TaskWarnings(task, vars) == {}
  {
    forall key | key in task
      ensures IsSilentCall(AfterLastDot(key), task[key])
    {
      TextlessCall(AfterLastDot(key), task[key].fields);
    }
    TextlessFields(task, "creates");
    TextlessFields(task, "removes");
    assert IsSilentCommand(task);
    SilentCallsAndCommandsIff(task, vars);
  }

  /** Such a copy vanishes from a playbook without a warning. */
  lemma NumberIsSilent(vars: Vars)
    ensures var task: Task := map["copy" := Map(map["dest" := Scalar("5")])];
            TaskFiles(task, vars) == {} && TaskWarnings(task, vars) == {}
  {
    TextlessIsSilent(map["copy" := Map(map["dest" := Scalar("5")])], vars);
  }

  /** The two tasks differ in nothing a scan reads but their module calls. */
  ghost predicate SameFrame(a: Task, b: Task) {
    && DisplayName(a) == DisplayName(b) && LoopItems(a) == LoopItems(b) && IncludeFile(a) == IncludeFile(b)
    && CreatesRefs(a) == CreatesRefs(b) && RemovesWarnings(a) == RemovesWarnings(b)
  }

  predicate IsUnarchive(key: string) {
    AfterLastDot(key) == "unarchive"
  }

  /**
   Taking `unarchive` out of a leaf task, under its short or its full name and
   whatever else the task holds, changes nothing of what a scan makes of it: the
   members of an archive are not even warned about.
   */
  lemma UnarchiveIsSilent(task: Task, key: string, vars: Vars, h: Host, dir: string)
    requires key in task && IsUnarchive(key)
    ensures var l, without := Leaf(task, vars), Leaf(task - {key}, vars);
            && LeafFiles(l) == LeafFiles(without)
            && LeafWarnings(l, dir) == LeafWarnings(without, dir)
            && LeafEdges(h, l, dir) == LeafEdges(h, without, dir)
  {
    UnarchiveFrame(task, key);
    UnarchiveCalls(DisplayName(task), task, key);
    FrameAndCalls(task, task - {key}, vars);
    SameLeaf(task, task - {key}, vars, h, dir);
  }

  lemma SameLeaf(a: Task, b: Task, vars: Vars, h: Host, dir: string)
    requires SameFrame(a, b) && TaskFiles(a, vars) == TaskFiles(b, vars)
             && TaskWarnings(a, vars) == TaskWarnings(b, vars)
    ensures LeafFiles(Leaf(a, vars)) == LeafFiles(Leaf(b, vars))
    ensures LeafWarnings(Leaf(a, vars), dir) == LeafWarnings(Leaf(b, vars), dir)
    ensures LeafEdges(h, Leaf(a, vars), dir) == LeafEdges(h, Leaf(b, vars), dir)
  {
    SameTarget(a, b, vars, dir);
    if IncludeFile(a) == "" {
      assert LeafFiles(Leaf(a, vars)) == TaskFiles(a, vars);
      assert LeafFiles(Leaf(b, vars)) == TaskFiles(b, vars);
    } else {
      assert LeafFiles(Leaf(a, vars)) == {} == LeafFiles(Leaf(b, vars));
    }
  }

  lemma SameTarget(a: Task, b: Task, vars: Vars, dir: string)
    requires IncludeFile(a) == IncludeFile(b)
    ensures IncludeTarget(Leaf(a, vars), dir) == IncludeTarget(Leaf(b, vars), dir)
  {
  }

  lemma FrameAndCalls(a: Task, b: Task, vars: Vars)
    requires SameFrame(a, b) && ModuleRefs(a) == ModuleRefs(b)
    requires CallsWarnings(DisplayName(a), a, a.Keys) == CallsWarnings(DisplayName(b), b, b.Keys)
    ensures TaskFiles(a, vars) == TaskFiles(b, vars) && TaskWarnings(a, vars) == TaskWarnings(b, vars)
  {
    assert TaskRefs(a) == TaskRefs(b);
  }

  lemma UnarchiveFrame(task: Task, key: string)
    requires key in task && IsUnarchive(key)
    ensures SameFrame(task, task - {key})
  {
    UnarchiveShape(key);
    DropsUnread(task, key);
    DropsUncommanded(task, key);
    SameIncludes(task, task - {key}, INCLUDE_KEYS);
  }

  lemma DropsUnread(task: Task, key: string)
    requires key !in {"name", "loop", "with_items"}
    ensures DisplayName(task - {key}) == DisplayName(task) && LoopItems(task - {key}) == LoopItems(task)
  {
    var less := task - {key};
    assert Field(less, "name") == Field(task, "name");
    assert ("loop" in less <==> "loop" in task) && Field(less, "with_items") == Field(task, "with_items");
  }

  lemma DropsUncommanded(task: Task, key: string)
    requires key in task && !IsCommandKey(key) && key !in {"creates", "removes", "name"}
    ensures CreatesRefs(task - {key}) == CreatesRefs(task) && RemovesWarnings(task - {key}) == RemovesWarnings(task)
  {
    KeepsCommands(task, key);
    KeepsFields(task, key);
    KeyCreatesDrop(task, key);
  }

  lemma KeepsFields(task: Task, key: string)
    requires key !in {"creates", "removes", "name"}
    ensures FieldCreates(task - {key}) == FieldCreates(task)
    ensures TextField(task - {key}, "removes") == TextField(task, "removes")
    ensures DisplayName(task - {key}) == DisplayName(task)
  {
    var less := task - {key};
    assert Field(less, "creates") == Field(task, "creates");
    assert Field(less, "removes") == Field(task, "removes");
    assert Field(less, "name") == Field(task, "name");
  }

  lemma KeepsCommands(task: Task, key: string)
    requires !IsCommandKey(key)
    ensures HasCommand(task - {key}) <==> HasCommand(task)
  {
    forall k | k in task && IsCommandKey(k)
      ensures k in task - {key}
    {
    }
  }

  lemma KeyCreatesDrop(task: Task, key: string)
    requires key in task && KeyCreates(key, task[key]) == {}
    ensures LineCreates(task - {key}) == LineCreates(task)
  {
    var less := task - {key};
    forall k, r | k in task && r in KeyCreates(k, task[k])
      ensures k in less && r in KeyCreates(k, less[k])
    {
    }
  }

  lemma {:induction false} SameIncludes(a: Task, b: Task, keys: seq<string>)
    requires forall k :: k in keys ==> Field(a, k) == Field(b, k)
    ensures FirstInclude(a, keys) == FirstInclude(b, keys)
  {
    if keys != [] {
      assert keys[0] in keys;
      SameIncludes(a, b, keys[1..]);
    }
  }

  lemma UnarchiveCalls(name: string, task: Task, key: string)
    requires key in task && IsUnarchive(key)
    ensures ModuleRefs(task) == ModuleRefs(task - {key})
    ensures CallsWarnings(name, task, task.Keys) == CallsWarnings(name, task - {key}, (task - {key}).Keys)
  {
    UnarchiveShape(key);
    DropsCallRefs(task, key);
    DropsCallWarnings(name, task, key);
  }

  lemma RefIn(task: Task, key: string, r: Ref)
    requires key in task && r in CallRefs(AfterLastDot(key), task[key])
    ensures r in ModuleRefs(task)
  {
  }

  lemma RefFrom(task: Task, r: Ref) returns (key: string)
    requires r in ModuleRefs(task)
    ensures key in task && r in CallRefs(AfterLastDot(key), task[key])
  {
    key :| key in task && r in CallRefs(AfterLastDot(key), task[key]);
  }

  lemma DropsCallRefs(task: Task, key: string)
    requires key in task && CallRefs(AfterLastDot(key), task[key]) == {}
    ensures ModuleRefs(task) == ModuleRefs(task - {key})
  {
    var all, left := ModuleRefs(task), ModuleRefs(task - {key});
    forall r | r in all
      ensures r in left
    {
      var k := RefFrom(task, r);
      RefIn(task - {key}, k, r);
    }
    forall r | r in left
      ensures r in all
    {
      var k := RefFrom(task - {key}, r);
      RefIn(task, k, r);
    }
    assert all == left;
  }

  lemma DropsCallWarnings(name: string, task: Task, key: string)
    requires key in task && CallWarnings(name, AfterLastDot(key), task[key]) == {}
    ensures CallsWarnings(name, task, task.Keys) == CallsWarnings(name, task - {key}, (task - {key}).Keys)
  {
    var less := task - {key};
    forall w | w in CallsWarnings(name, task, task.Keys)
      ensures w in CallsWarnings(name, less, less.Keys)
    {
      var k :| k in task && w in CallWarnings(name, AfterLastDot(k), task[k]);
      assert k in less && less[k] == task[k];
    }
    forall w | w in CallsWarnings(name, less, less.Keys)
      ensures w in CallsWarnings(name, task, task.Keys)
    {
      var k :| k in less && w in CallWarnings(name, AfterLastDot(k), less[k]);
      assert k in task && less[k] == task[k];
    }
  }

  /** No key a scan reads by name, no file module and no command is `unarchive`. */
  lemma UnarchiveShape(key: string)
    requires IsUnarchive(key)
    ensures AfterLastDot(key) !in FILE_MODULES && !IsCommandKey(key)
    ensures key !in {"name", "loop", "with_items", "creates", "removes"} && key !in INCLUDE_KEYS
  {
    var mod := AfterLastDot(key);
    assert |mod| == 9 && mod[8] == 'e';
    assert |key| >= 9 && key[|key| - 1] == 'e' by {
      assert key[|key| - 9..][8] == 'e';
    }
    if mod in FILE_MODULES || mod in COMMAND_MODULES {
      ModuleNameShapes(mod);
      assert false;
    }
    if key in {"name", "loop", "with_items", "creates", "removes"} || key in INCLUDE_KEYS {
      ReadKeyShapes(key);
      assert false;
    }
  }

  lemma ModuleNameShapes(mod: string)
    requires mod in FILE_MODULES || mod in COMMAND_MODULES
    ensures |mod| != 9
  {
  }

  lemma ReadKeyShapes(key: string)
    requires key in {"name", "loop", "with_items", "creates", "removes"} || key in INCLUDE_KEYS
    ensures |key| < 9 || key[|key| - 1] != 'e'
  {
  }
}
