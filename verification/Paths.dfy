/** Lexical path handling of Go's `path/filepath` on slash-separated paths. */
module Paths {
  import opened Text

  predicate IsAbs(p: string) {
    p != "" && p[0] == '/'
  }

  function Push(stack: seq<string>, seg: string): seq<string> {
    if seg == "" || seg == "." then stack
    else if seg == ".." then (if stack == [] then [] else stack[..|stack| - 1])
    else stack + [seg]
  }

  function PushAll(stack: seq<string>, segs: seq<string>): seq<string>
    decreases |segs|
  {
    if segs == [] then stack else PushAll(Push(stack, segs[0]), segs[1..])
  }

  /** The shortest spelling of a rooted path. */
  function Clean(p: string): (r: string)
    ensures IsAbs(r)
  {
    "/" + JoinWith(PushAll([], Split(p, '/')), '/')
  }

  /** In a path that is not rooted, what leads out of it at the front stays. */
  function PushRelative(stack: seq<string>, seg: string): seq<string> {
    if seg == ".." && (stack == [] || stack[|stack| - 1] == "..") then stack + [".."] else Push(stack, seg)
  }

  function PushAllRelative(stack: seq<string>, segs: seq<string>): seq<string>
    decreases |segs|
  {
    if segs == [] then stack else PushAllRelative(PushRelative(stack, segs[0]), segs[1..])
  }

  /** `filepath.Clean` on any path. */
  function CleanAny(p: string): (r: string)
    ensures r != ""
  {
    if IsAbs(p) then Clean(p)
    else
      var r := JoinWith(PushAllRelative([], Split(p, '/')), '/');
      if r == "" then "." else r
  }

  /** `filepath.Abs`: a relative path is taken from the working directory. */
  function Abs(cwd: string, p: string): (r: string)
    ensures IsAbs(r)
  {
    if IsAbs(p) then Clean(p) else Clean(cwd + "/" + p)
  }

  function Join(dir: string, p: string): (r: string)
    ensures IsAbs(r)
  {
    Clean(dir + "/" + p)
  }

  function UpToLastSlash(p: string): string {
    if p == "" || p[|p| - 1] == '/' then p else UpToLastSlash(p[..|p| - 1])
  }

  function Dir(p: string): (r: string)
    ensures IsAbs(r)
  {
    Clean(UpToLastSlash(p))
  }

  predicate IsName(seg: string) {
    seg != "" && seg != "." && seg != ".." && '/' !in seg
  }

  lemma {:induction false} PushAllNames(stack: seq<string>, segs: seq<string>)
    requires forall p :: p in stack ==> IsName(p)
    requires forall p :: p in segs ==> '/' !in p
    ensures forall p :: p in PushAll(stack, segs) ==> IsName(p)
    decreases |segs|
  {
    if segs != [] {
      PushAllNames(Push(stack, segs[0]), segs[1..]);
    }
  }

  lemma {:induction false} PushAllKeepsNames(stack: seq<string>, segs: seq<string>)
    requires forall p :: p in segs ==> IsName(p)
    ensures PushAll(stack, segs) == stack + segs
    decreases |segs|
  {
    if segs != [] {
      assert IsName(segs[0]);
      PushAllKeepsNames(stack + [segs[0]], segs[1..]);
      assert stack + [segs[0]] + segs[1..] == stack + segs;
    }
  }

  lemma {:induction false} PushAllAppend(stack: seq<string>, a: seq<string>, b: seq<string>)
    ensures PushAll(stack, a + b) == PushAll(PushAll(stack, a), b)
    decreases |a|
  {
    if a == [] {
      assert a + b == b;
    } else {
      assert (a + b)[0] == a[0] && (a + b)[1..] == a[1..] + b;
      PushAllAppend(Push(stack, a[0]), a[1..], b);
    }
  }

  /** The segments of a cleaned path lead where those of the path itself lead. */
  lemma CleanLeadsThere(p: string)
    ensures PushAll([], Split(Clean(p), '/')) == PushAll([], Split(p, '/'))
  {
    var names := PushAll([], Split(p, '/'));
    PushAllNames([], Split(p, '/'));
    var text := JoinWith(names, '/');
    var segs := Split(text, '/');
    var clean := "/" + text;
    assert clean[1..] == text;
    assert Split(clean, '/') == [""] + segs;
    assert ([""] + segs)[1..] == segs;
    assert PushAll([], Split(clean, '/')) == PushAll([], segs);
    if names == [] {
      assert segs == [""];
      assert Push([], "") == [] && segs[1..] == [];
      assert PushAll([], segs) == PushAll([], []) == [];
    } else {
      SplitJoin(names, '/');
      PushAllKeepsNames([], names);
      assert [] + names == names;
    }
  }

  /** Cleaning is idempotent, so one file has one key however it was spelled lexically. */
  lemma CleanIdempotent(p: string)
    ensures Clean(Clean(p)) == Clean(p)
  {
    CleanLeadsThere(p);
  }

  /** Resolving against a directory does not depend on how the directory is spelled. */
  lemma JoinIgnoresSpelling(dir: string, p: string)
    ensures Join(Clean(dir), p) == Join(dir, p)
    ensures Abs(Clean(dir), p) == Abs(dir, p)
  {
    CleanLeadsThere(dir);
    SplitConcat(Clean(dir), p, '/');
    SplitConcat(dir, p, '/');
    assert Clean(dir) + "/" + p == Clean(dir) + ("/" + p) && dir + "/" + p == dir + ("/" + p);
    PushAllAppend([], Split(Clean(dir), '/'), Split(p, '/'));
    PushAllAppend([], Split(dir, '/'), Split(p, '/'));
  }

  /** What comes out is canonical: proper names only, joined by single slashes. */
  lemma CleanIsCanonical(p: string)
    ensures Clean(p) == "/" || forall seg :: seg in Split(Clean(p), '/')[1..] ==> IsName(seg)
  {
    var names := PushAll([], Split(p, '/'));
    PushAllNames([], Split(p, '/'));
    var text := JoinWith(names, '/');
    assert ("/" + text)[1..] == text;
    assert Split(Clean(p), '/') == [""] + Split(text, '/');
    if names != [] {
      SplitJoin(names, '/');
    }
  }

  /** A rooted path is its own key exactly when it is canonical. */
  lemma CleanFixesIff(p: string)
    requires IsAbs(p)
    ensures Clean(p) == p <==> p == "/" || forall seg :: seg in Split(p, '/')[1..] ==> IsName(seg)
  {
    CleanIsCanonical(p);
    var segs := Split(p[1..], '/');
    assert Split(p, '/') == [""] + segs && ([""] + segs)[1..] == segs;
    JoinSplit(p[1..], '/');
    if p == "/" {
      assert segs == [""] && segs[1..] == [];
      assert PushAll([], [""] + segs) == PushAll([], segs) == PushAll([], []);
    } else if forall seg :: seg in segs ==> IsName(seg) {
      assert PushAll([], [""] + segs) == PushAll([], segs);
      PushAllKeepsNames([], segs);
      assert [] + segs == segs && p == "/" + p[1..];
    }
  }

  // ---- what a path leads to, with the paths written out ----

  /** Where segments put behind a path lead. */
  lemma LeadsOn(dir: string, p: string)
    ensures PushAll([], Split(dir + "/" + p, '/')) == PushAll(PushAll([], Split(dir, '/')), Split(p, '/'))
  {
    SplitConcat(dir, p, '/');
    assert dir + "/" + p == dir + ("/" + p);
    PushAllAppend([], Split(dir, '/'), Split(p, '/'));
  }

  lemma SplitName(n: string)
    requires '/' !in n
    ensures Split(n, '/') == [n]
  {
    SplitPrefix(n, "", '/');
    assert n + "" == n;
  }

  lemma PushOne(stack: seq<string>, seg: string)
    ensures PushAll(stack, [seg]) == Push(stack, seg)
  {
    assert [seg][1..] == [];
  }

  lemma LeadsToChild(d: string, n: string)
    requires IsName(n)
    ensures PushAll([], Split(d + "/" + n, '/')) == PushAll([], Split(d, '/')) + [n]
  {
    LeadsOn(d, n);
    SplitName(n);
    PushOne(PushAll([], Split(d, '/')), n);
  }

  /** A name in a directory is what its path, a slash and the name spell. */
  lemma JoinName(d: string, n: string)
    requires Clean(d) == d && IsName(n)
    ensures Join(d, n) == Abs(d, n) == if d == "/" then "/" + n else d + "/" + n
  {
    var names := PushAll([], Split(d, '/'));
    PushAllNames([], Split(d, '/'));
    LeadsToChild(d, n);
    JoinLast(names, n, '/');
    if names != [] {
      assert IsName(names[0]);
      assert d[1..] == JoinWith(names, '/') != "";
      assert "/" + (JoinWith(names, '/') + "/" + n) == d + "/" + n;
    }
  }

  /** What the name `n` in the directory `d` is called. */
  function Child(d: string, n: string): string {
    if d == "/" then "/" + n else d + "/" + n
  }

  lemma {:induction false} UpToSlashBehind(p: string, n: string)
    requires '/' !in n
    ensures UpToLastSlash(p + "/" + n) == p + "/"
  {
    var whole := p + "/" + n;
    if n == "" {
      assert whole == p + "/";
    } else {
      var init := n[..|n| - 1];
      assert n[|n| - 1] in n && whole[|whole| - 1] == n[|n| - 1];
      assert whole[..|whole| - 1] == p + "/" + init;
      UpToSlashBehind(p, init);
    }
  }

  /** The directory of what lies in `d` is `d`, cleaned; of what lies in the root it is the root. */
  lemma DirOfChild(d: string, n: string)
    requires '/' !in n
    ensures Dir(d + "/" + n) == Clean(d)
    ensures Dir("/" + n) == "/"
  {
    UpToSlashBehind(d, n);
    UpToSlashBehind("", n);
    assert "" + "/" + n == "/" + n && "" + "/" == "/";
    SlashBehind(d);
    SlashBehind("");
    assert JoinWith([], '/') == "";
    PushOne([], "");
  }

  lemma ChildIsInDir(d: string, n: string)
    requires Clean(d) == d && IsName(n)
    ensures Dir(Child(d, n)) == d
  {
    DirOfChild(d, n);
  }

  lemma SlashBehind(d: string)
    ensures PushAll([], Split(d + "/", '/')) == PushAll([], Split(d, '/'))
  {
    LeadsOn(d, "");
    assert d + "/" + "" == d + "/";
    PushOne(PushAll([], Split(d, '/')), "");
  }

  /** A step up undoes a step down. */
  lemma JoinUp(d: string, n: string, p: string)
    requires IsName(n)
    ensures Join(d + "/" + n, "../" + p) == Join(d, p)
  {
    LeadsToChild(d, n);
    UpFrom(d + "/" + n, PushAll([], Split(d, '/')), n, p);
    LeadsOn(d, p);
  }

  lemma UpFrom(child: string, stack: seq<string>, n: string, p: string)
    requires PushAll([], Split(child, '/')) == stack + [n]
    ensures PushAll([], Split(child + "/" + ("../" + p), '/')) == PushAll(stack, Split(p, '/'))
  {
    assert (stack + [n])[..|stack|] == stack;
    StepThen(child, "..", p);
    assert ".." + "/" == "../";
  }

  /** At the root a step up leads nowhere. */
  lemma JoinUpAtRoot(p: string)
    ensures Join("/", "../" + p) == Join("/", p)
  {
    SlashBehind("");
    assert "" + "/" == "/";
    PushOne([], "");
    assert PushAll([], Split("/", '/')) == [];
    StepThen("/", "..", p);
    assert ".." + "/" == "../";
    LeadsOn("/", p);
  }

  /** A dot and an additional slash lead nowhere. */
  lemma JoinStays(d: string, p: string)
    ensures Join(d, "./" + p) == Join(d, p)
    ensures Join(d, "/" + p) == Join(d, p)
  {
    LeadsOn(d, p);
    StepThen(d, ".", p);
    StepThen(d, "", p);
    assert "." + "/" == "./" && "" + "/" == "/";
  }

  lemma StepThen(d: string, seg: string, p: string)
    requires '/' !in seg
    ensures PushAll([], Split(d + "/" + (seg + "/" + p), '/'))
         == PushAll(Push(PushAll([], Split(d, '/')), seg), Split(p, '/'))
  {
    var stack := PushAll([], Split(d, '/'));
    LeadsOn(d, seg + "/" + p);
    SplitConcat(seg, p, '/');
    assert seg + "/" + p == seg + ("/" + p);
    SplitName(seg);
    PushAllAppend(stack, [seg], Split(p, '/'));
    PushOne(stack, seg);
  }

  // ---- paths that are not rooted ----

  /** Steps up, then names. */
  ghost predicate IsUpsThenNames(segs: seq<string>) {
    && (forall p :: p in segs ==> p == ".." || IsName(p))
    && forall i :: 0 < i < |segs| && segs[i] == ".." ==> segs[i - 1] == ".."
  }

  lemma {:induction false} RelativeLeadsThere(base: seq<string>, stack: seq<string>, segs: seq<string>)
    requires IsUpsThenNames(stack) && forall p :: p in segs ==> '/' !in p
    ensures IsUpsThenNames(PushAllRelative(stack, segs))
    ensures PushAll(base, PushAllRelative(stack, segs)) == PushAll(PushAll(base, stack), segs)
    decreases |segs|
  {
    if segs != [] {
      var next := PushRelative(stack, segs[0]);
      RelativeStep(base, stack, segs[0]);
      RelativeLeadsThere(base, next, segs[1..]);
    }
  }

  lemma RelativeStep(base: seq<string>, stack: seq<string>, seg: string)
    requires IsUpsThenNames(stack) && '/' !in seg
    ensures IsUpsThenNames(PushRelative(stack, seg))
    ensures PushAll(base, PushRelative(stack, seg)) == Push(PushAll(base, stack), seg)
  {
    PushAllAppend(base, stack, [seg]);
    PushOne(PushAll(base, stack), seg);
    if seg == ".." && stack != [] && stack[|stack| - 1] != ".." {
      var init, last := stack[..|stack| - 1], stack[|stack| - 1];
      assert stack == init + [last] && last in stack;
      PushAllAppend(base, init, [last]);
      PushOne(PushAll(base, init), last);
      assert forall p :: p in init ==> p in stack;
      assert (PushAll(base, init) + [last])[..|PushAll(base, init)|] == PushAll(base, init);
    }
  }

  /** Cleaning a path does not change where it leads, from any working directory. */
  lemma CleanAnyLeadsThere(cwd: string, p: string)
    ensures Abs(cwd, CleanAny(p)) == Abs(cwd, p)
  {
    if IsAbs(p) {
      CleanIdempotent(p);
    } else {
      var base, segs := PushAll([], Split(cwd, '/')), Split(p, '/');
      var rel := PushAllRelative([], segs);
      RelativeLeadsThere(base, [], segs);
      LeadsOn(cwd, p);
      LeadsOn(cwd, CleanAny(p));
      if rel == [] {
        SplitName(".");
        PushOne(base, ".");
        assert CleanAny(p) == ".";
      } else {
        SplitJoin(rel, '/');
        JoinedNotEmpty(rel);
      }
    }
  }

  lemma JoinedNotEmpty(segs: seq<string>)
    requires segs != [] && IsUpsThenNames(segs)
    ensures JoinWith(segs, '/') != "" && !IsAbs(JoinWith(segs, '/'))
  {
    assert segs[0] in segs;
    assert segs[0] != "" && segs[0][0] in segs[0];
    assert JoinWith(segs, '/')[0] == segs[0][0];
  }
}
