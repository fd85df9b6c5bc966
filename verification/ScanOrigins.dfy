/**
 Where the results of a scan come from: each visited file is reached from a root by a
 chain of includes that also explains the variables it was scanned under, and each
 warning belongs to a visited file.
 */
module ScanOrigins {
  import opened Wrappers
  import opened Paths
  import opened Templates
  import opened Playbooks
  import opened Scan

  /** The leaf `l` of `from` includes `k`, and `k` was scanned under the variables in force there. */
  ghost predicate Links(h: Host, ctx: map<string, Vars>, from: string, l: Leaf, k: string) {
    && from in ctx && l in FileLeaves(h, from, ctx[from])
    && k in LeafEdges(h, l, Dir(from))
    && k in ctx && ctx[k] == l.vars
  }

  ghost predicate IsRoot(h: Host, roots: seq<string>, ctx: map<string, Vars>, k: string) {
    k in ctx && ctx[k] == map[] && exists r :: r in roots && Abs(h.cwd, r) == k
  }

  datatype Hop = Hop(from: string, leaf: Leaf)

  /** The includes of `chain` lead from a root to `k`, the last one first. */
  ghost predicate IsChain(h: Host, roots: seq<string>, ctx: map<string, Vars>, k: string, chain: seq<Hop>)
    decreases |chain|
  {
    if chain == [] then IsRoot(h, roots, ctx, k)
    else Links(h, ctx, chain[0].from, chain[0].leaf, k) && IsChain(h, roots, ctx, chain[0].from, chain[1..])
  }

  /** `k` is a root scanned without variables, or the end of a chain of includes that starts at one. */
  ghost predicate IsDerived(h: Host, roots: seq<string>, ctx: map<string, Vars>, k: string) {
    exists chain :: IsChain(h, roots, ctx, k, chain)
  }

  /** The leaf `l` of `k` includes a file that does not load, and `w` says so. */
  ghost predicate IsFailure(h: Host, k: string, l: Leaf, w: Warning) {
    && IncludeFile(l.task) != "" && IncludeTarget(l, Dir(k)).Some?
    && var path := IncludeTarget(l, Dir(k)).value;
    && LoadPlays(h, Abs(h.cwd, path)).Err?
    && w == IncludeFailed(DisplayName(l.task), path, LoadPlays(h, Abs(h.cwd, path)).error)
  }

  ghost predicate IsWarnedFor(h: Host, ctx: map<string, Vars>, w: Warning) {
    || (exists k :: k in ctx && w in WarningsOf(h, k, ctx[k]))
    || (exists k, l :: k in ctx && l in FileLeaves(h, k, ctx[k]) && IsFailure(h, k, l, w))
  }

  ghost predicate Sound(h: Host, roots: seq<string>, st: State) {
    && (forall k :: k in st.ctx ==> IsDerived(h, roots, st.ctx, k))
    && (forall w :: w in st.warnings ==> IsWarnedFor(h, st.ctx, w))
  }

  lemma {:induction false} ChainKeeps(h: Host, roots: seq<string>, small: map<string, Vars>, large: map<string, Vars>,
                                      k: string, chain: seq<Hop>)
    requires Within(small, large) && IsChain(h, roots, small, k, chain)
    ensures IsChain(h, roots, large, k, chain)
    decreases |chain|
  {
    if chain != [] {
      LinksKeeps(h, small, large, chain[0].from, chain[0].leaf, k);
      ChainKeeps(h, roots, small, large, chain[0].from, chain[1..]);
    }
  }

  lemma LinksKeeps(h: Host, small: map<string, Vars>, large: map<string, Vars>, from: string, l: Leaf, k: string)
    requires Within(small, large) && Links(h, small, from, l, k)
    ensures Links(h, large, from, l, k)
  {
  }

  lemma DerivedKeeps(h: Host, roots: seq<string>, small: map<string, Vars>, large: map<string, Vars>, k: string)
    requires Within(small, large) && IsDerived(h, roots, small, k)
    ensures IsDerived(h, roots, large, k)
  {
    var chain :| IsChain(h, roots, small, k, chain);
    ChainKeeps(h, roots, small, large, k, chain);
  }

  lemma WarnedKeeps(h: Host, small: map<string, Vars>, large: map<string, Vars>, w: Warning)
    requires Within(small, large) && IsWarnedFor(h, small, w)
    ensures IsWarnedFor(h, large, w)
  {
    if k :| k in small && w in WarningsOf(h, k, small[k]) {
      assert w in WarningsOf(h, k, large[k]);
    } else {
      var k, l :| k in small && l in FileLeaves(h, k, small[k]) && IsFailure(h, k, l, w);
      assert l in FileLeaves(h, k, large[k]);
    }
  }

  /** A file joins the visited ones, with warnings that belong to it. */
  lemma VisitIsSound(h: Host, roots: seq<string>, st: State, key: string, vars: Vars, own: set<Warning>)
    requires Sound(h, roots, st) && key !in st.ctx && IsDerived(h, roots, st.ctx[key := vars], key)
    requires own <= WarningsOf(h, key, vars)
    ensures Sound(h, roots, State(st.ctx[key := vars], st.files, st.warnings + own))
  {
    var ctx := st.ctx[key := vars];
    forall k | k in st.ctx
      ensures IsDerived(h, roots, ctx, k)
    {
      DerivedKeeps(h, roots, st.ctx, ctx, k);
    }
    forall w | w in st.warnings + own
      ensures IsWarnedFor(h, ctx, w)
    {
      if w in st.warnings {
        WarnedKeeps(h, st.ctx, ctx, w);
      } else {
        assert w in WarningsOf(h, key, ctx[key]);
      }
    }
  }

  /** An include of a visited file explains the visit of its target. */
  lemma IncludeDerives(h: Host, roots: seq<string>, ctx: map<string, Vars>, key: string, l: Leaf, k: string)
    requires IsDerived(h, roots, ctx, key) && key in ctx && l in FileLeaves(h, key, ctx[key])
    requires k in LeafEdges(h, l, Dir(key)) && k !in ctx
    ensures IsDerived(h, roots, ctx[k := l.vars], k)
  {
    var next := ctx[k := l.vars];
    DerivedKeeps(h, roots, ctx, next, key);
    assert Links(h, next, key, l, k);
    var chain :| IsChain(h, roots, next, key, chain);
    assert ([Hop(key, l)] + chain)[1..] == chain;
    assert IsChain(h, roots, next, k, [Hop(key, l)] + chain);
  }

  lemma {:induction false} ScanFileSound(h: Host, roots: seq<string>, path: string, vars: Vars, st: State)
    requires Sound(h, roots, st)
    requires var key := Abs(h.cwd, path); key !in st.ctx ==> IsDerived(h, roots, st.ctx[key := vars], key)
    ensures Sound(h, roots, ScanFile(h, path, vars, st).0)
    ensures ScanFile(h, path, vars, st).1.Some? ==>
            LoadPlays(h, Abs(h.cwd, path)) == Err(ScanFile(h, path, vars, st).1.value)
    decreases h.files.Keys - st.ctx.Keys, 0, 0
  {
    var key := Abs(h.cwd, path);
    if key !in st.ctx {
      match LoadPlays(h, key)
      case Err(_) =>
        VisitIsSound(h, roots, st, key, vars, {});
        assert st.warnings + {} == st.warnings;
      case Ok(plays) =>
        assert key in h.files.Keys - st.ctx.Keys;
        var own := DocWarnings(h, plays, Dir(key));
        VisitIsSound(h, roots, st, key, vars, own);
        ScanLeavesSound(h, roots, key, DocLeaves(h, plays, vars, Dir(key)),
                        State(st.ctx[key := vars], st.files, st.warnings + own));
    }
  }

  lemma {:induction false} ScanLeavesSound(h: Host, roots: seq<string>, key: string, leaves: seq<Leaf>, st: State)
    requires Sound(h, roots, st) && key in st.ctx && forall l :: l in leaves ==> l in FileLeaves(h, key, st.ctx[key])
    ensures Sound(h, roots, ScanLeaves(h, leaves, Dir(key), st))
    decreases h.files.Keys - st.ctx.Keys, 2, |leaves|
  {
    if leaves != [] {
      assert leaves[0] in leaves;
      ScanLeafSound(h, roots, key, leaves[0], st);
      ScanLeafProgress(h, leaves[0], Dir(key), st);
      ScanLeavesSound(h, roots, key, leaves[1..], ScanLeaf(h, leaves[0], Dir(key), st));
    }
  }

  lemma {:induction false} ScanLeafSound(h: Host, roots: seq<string>, key: string, l: Leaf, st: State)
    requires Sound(h, roots, st) && key in st.ctx && l in FileLeaves(h, key, st.ctx[key])
    ensures Sound(h, roots, ScanLeaf(h, l, Dir(key), st))
    decreases h.files.Keys - st.ctx.Keys, 1, 0
  {
    var dir := Dir(key);
    if IncludeFile(l.task) == "" || IncludeTarget(l, dir).None? {
      assert LeafWarnings(l, dir) <= WarningsOf(h, key, st.ctx[key]);
      MoreIsSound(h, roots, st, ScanLeaf(h, l, dir, st));
    } else {
      var path := IncludeTarget(l, dir).value;
      var target := Abs(h.cwd, path);
      if target !in st.ctx {
        IncludeDerives(h, roots, st.ctx, key, l, target);
      }
      ScanFileSound(h, roots, path, l.vars, st);
      ScanFileProgress(h, path, l.vars, st);
      var r := ScanFile(h, path, l.vars, st);
      if r.1.Some? {
        assert l in FileLeaves(h, key, r.0.ctx[key]);
        assert IsFailure(h, key, l, IncludeFailed(DisplayName(l.task), path, r.1.value));
        MoreIsSound(h, roots, r.0, ScanLeaf(h, l, dir, st));
      }
    }
  }

  lemma MoreIsSound(h: Host, roots: seq<string>, st: State, next: State)
    requires Sound(h, roots, st) && next.ctx == st.ctx
    requires forall w :: w in next.warnings ==> w in st.warnings || IsWarnedFor(h, st.ctx, w)
    ensures Sound(h, roots, next)
  {
  }

  lemma {:induction false} ScanRootsSound(h: Host, all: seq<string>, roots: seq<string>, st: State)
    requires Sound(h, all, st) && (forall r :: r in roots ==> r in all) && ScanRoots(h, roots, st).Ok?
    ensures Sound(h, all, ScanRoots(h, roots, st).value)
    decreases |roots|
  {
    if roots != [] {
      var key := Abs(h.cwd, roots[0]);
      assert roots[0] in all;
      if key !in st.ctx {
        assert IsChain(h, all, st.ctx[key := map[]], key, []);
      }
      ScanFileSound(h, all, roots[0], map[], st);
      ScanRootsSound(h, all, roots[1..], ScanFile(h, roots[0], map[], st).0);
    }
  }

  /**
   Each visited file is a root, scanned without variables, or is reached from one by
   includes, scanned under the variables in force at the include. Each warning is due
   to a visited file or names an include of one whose target does not load.
   */
  lemma ScanIsSound(h: Host, roots: seq<string>)
    requires ScanRoots(h, roots, START).Ok?
    ensures var st := ScanRoots(h, roots, START).value;
            && (forall k :: k in st.ctx ==> IsDerived(h, roots, st.ctx, k))
            && (forall w :: w in st.warnings ==> IsWarnedFor(h, st.ctx, w))
  {
    ScanRootsSound(h, roots, roots, START);
  }
}
