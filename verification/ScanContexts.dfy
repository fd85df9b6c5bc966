/**
 Files reached in more than one way. A visited file is scanned once, under the
 variables of its first visit, and what it manages under others is lost without a
 warning: this says when that happens.
 */
module ScanContexts {
  import opened Wrappers
  import opened Text
  import opened Paths
  import opened Templates
  import opened Playbooks
  import opened Scan
  import opened ScanOrigins
  import opened ScanTheorems

  /** An include that is followed from a file under some variables. */
  datatype Visit = Visit(from: string, under: Vars, leaf: Leaf)

  /** The includes of `chain`, the last one first, lead from a root without variables to `k` under `v`. */
  ghost predicate LeadsTo(h: Host, roots: seq<string>, k: string, v: Vars, chain: seq<Visit>)
    decreases |chain|
  {
    if chain == [] then v == map[] && exists r :: r in roots && Abs(h.cwd, r) == k
    else
      var last := chain[0];
      && last.leaf in FileLeaves(h, last.from, last.under) && k in LeafEdges(h, last.leaf, Dir(last.from))
      && v == last.leaf.vars && LeadsTo(h, roots, last.from, last.under, chain[1..])
  }

  /** A way in which the playbooks use `k`, whatever a scan makes of it. */
  ghost predicate IsContext(h: Host, roots: seq<string>, k: string, v: Vars) {
    exists chain :: LeadsTo(h, roots, k, v, chain)
  }

  ghost predicate IsUnambiguous(h: Host, roots: seq<string>) {
    forall k, v, w :: IsContext(h, roots, k, v) && IsContext(h, roots, k, w) ==> v == w
  }

  ghost predicate CoversContexts(h: Host, roots: seq<string>, ctx: map<string, Vars>) {
    forall k, v :: IsContext(h, roots, k, v) ==> k in ctx && ctx[k] == v
  }

  lemma {:induction false} ChainLeads(h: Host, roots: seq<string>, ctx: map<string, Vars>, k: string, chain: seq<Hop>)
    requires IsChain(h, roots, ctx, k, chain)
    ensures k in ctx && IsContext(h, roots, k, ctx[k])
    decreases |chain|
  {
    if chain == [] {
      assert LeadsTo(h, roots, k, ctx[k], []);
    } else {
      var hop := chain[0];
      ChainLeads(h, roots, ctx, hop.from, chain[1..]);
      var before :| LeadsTo(h, roots, hop.from, ctx[hop.from], before);
      IncludeLeads(h, roots, Visit(hop.from, ctx[hop.from], hop.leaf), k, before);
    }
  }

  lemma IncludeLeads(h: Host, roots: seq<string>, last: Visit, k: string, before: seq<Visit>)
    requires LeadsTo(h, roots, last.from, last.under, before)
    requires last.leaf in FileLeaves(h, last.from, last.under) && k in LeafEdges(h, last.leaf, Dir(last.from))
    ensures IsContext(h, roots, k, last.leaf.vars)
  {
    assert ([last] + before)[1..] == before;
    assert LeadsTo(h, roots, k, last.leaf.vars, [last] + before);
  }

  /** Each visited file is scanned in a way it is used. */
  lemma VisitIsContext(h: Host, roots: seq<string>, ctx: map<string, Vars>, k: string)
    requires IsDerived(h, roots, ctx, k)
    ensures k in ctx && IsContext(h, roots, k, ctx[k])
  {
    var chain :| IsChain(h, roots, ctx, k, chain);
    ChainLeads(h, roots, ctx, k, chain);
  }

  lemma {:induction false} ContextVisited(h: Host, roots: seq<string>, ctx: map<string, Vars>, k: string, v: Vars,
                                          chain: seq<Visit>)
    requires IsUnambiguous(h, roots) && ClosedUnder(h, ctx, ctx.Keys)
    requires (forall r :: r in roots ==> Abs(h.cwd, r) in ctx) && forall k :: k in ctx ==> IsDerived(h, roots, ctx, k)
    requires LeadsTo(h, roots, k, v, chain)
    ensures k in ctx && ctx[k] == v
    decreases |chain|
  {
    if chain != [] {
      var last := chain[0];
      ContextVisited(h, roots, ctx, last.from, last.under, chain[1..]);
      assert k in EdgesOf(h, last.from, ctx[last.from]);
    }
    VisitIsContext(h, roots, ctx, k);
    assert IsContext(h, roots, k, v);
  }

  /**
   A scan covers every way in which the playbooks use a file exactly when they use no
   file in two ways, that is, under different variables.
   */
  lemma CoversContextsIff(h: Host, roots: seq<string>)
    requires ScanRoots(h, roots, START).Ok?
    ensures CoversContexts(h, roots, ScanRoots(h, roots, START).value.ctx) <==> IsUnambiguous(h, roots)
  {
    ScanIsExact(h, roots);
    var ctx := ScanRoots(h, roots, START).value.ctx;
    if IsUnambiguous(h, roots) {
      forall k, v | IsContext(h, roots, k, v)
        ensures k in ctx && ctx[k] == v
      {
        var chain :| LeadsTo(h, roots, k, v, chain);
        ContextVisited(h, roots, ctx, k, v, chain);
      }
    }
  }

  /** Some use of a file manages `f`. */
  ghost predicate IsManaged(h: Host, roots: seq<string>, f: string) {
    exists k, v :: IsContext(h, roots, k, v) && f in FilesOf(h, k, v)
  }

  /**
   What is returned is always managed in some use of a file, and with no file used in
   two ways it is everything that is.
   */
  lemma ManagedFilesReturned(h: Host, roots: seq<string>)
    requires ScanRoots(h, roots, START).Ok?
    ensures var st := ScanRoots(h, roots, START).value;
            && (forall f :: f in st.files ==> IsManaged(h, roots, f))
            && (IsUnambiguous(h, roots) ==> forall f :: f in st.files <==> IsManaged(h, roots, f))
  {
    ScanIsExact(h, roots);
    CoversContextsIff(h, roots);
    var st := ScanRoots(h, roots, START).value;
    forall f | f in st.files
      ensures IsManaged(h, roots, f)
    {
      var k :| k in st.ctx && f in FilesOf(h, k, st.ctx[k]);
      VisitIsContext(h, roots, st.ctx, k);
    }
    if IsUnambiguous(h, roots) {
      forall f | IsManaged(h, roots, f)
        ensures f in st.files
      {
        var k, v :| IsContext(h, roots, k, v) && f in FilesOf(h, k, v);
        assert st.ctx[k] == v;
      }
    }
  }
}
