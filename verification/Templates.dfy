/**
 Template references in playbook strings: the pattern `\{\{.*?\}\}` as an
 explicit leftmost, shortest scan, and the single-pass substitution built on it.
 */
module Templates {
  import opened Wrappers

  type Vars = map<string, string>

  /** What the pattern matches, stated on positions: the reference definition. */
  ghost predicate IsSpan(s: string, i: nat, e: nat) {
    && i + 4 <= e <= |s|
    && s[i] == '{' && s[i + 1] == '{'
    && s[e - 2] == '}' && s[e - 1] == '}'
    && forall k :: i + 2 <= k < e - 2 ==> s[k] != '\n'
  }

  /** Length of the shortest newline-free prefix of `s` that ends in "}}". */
  function CloseLen(s: string): (r: Option<nat>)
    ensures r.Some? ==> 2 <= r.value <= |s|
  {
    if |s| >= 2 && s[0] == '}' && s[1] == '}' then Some(2)
    else if s == "" || s[0] == '\n' then None
    else match CloseLen(s[1..])
      case None => None
      case Some(n) => Some(n + 1)
  }

  /** Length of the reference that starts at the front of `s`, if one does. */
  function SpanLen(s: string): (r: Option<nat>)
    ensures r.Some? ==> 4 <= r.value <= |s|
  {
    if |s| >= 2 && s[0] == '{' && s[1] == '{' then
      match CloseLen(s[2..])
      case None => None
      case Some(n) => Some(n + 2)
    else None
  }

  /** The references of `s`, left to right, each starting after the last one ended. */
  function Spans(s: string): (r: seq<string>)
    decreases |s|
  {
    if s == "" then []
    else match SpanLen(s)
      case Some(n) => [s[..n]] + Spans(s[n..])
      case None => Spans(s[1..])
  }

  predicate HasTemplate(s: string) {
    s != "" && (SpanLen(s).Some? || HasTemplate(s[1..]))
  }

  predicate IsSpace(c: char) {
    c in " \t\n\r" || c == '\U{B}' || c == '\U{C}' || c == '\U{85}' || c == '\U{A0}' || c == '\U{1680}'
    || '\U{2000}' <= c <= '\U{200A}' || c == '\U{2028}' || c == '\U{2029}' || c == '\U{202F}'
    || c == '\U{205F}' || c == '\U{3000}'
  }

  /** White space as Unicode counts it, by code point. */
  lemma SpaceIsUnicode(c: char)
    ensures IsSpace(c) <==>
            || c as int in {0x20, 0x85, 0xA0, 0x1680, 0x2028, 0x2029, 0x202F, 0x205F, 0x3000}
            || 9 <= c as int <= 13 || 0x2000 <= c as int <= 0x200A
  {
  }

  function TrimSpace(s: string): (r: string)
    ensures |r| <= |s|
    ensures r != "" ==> !IsSpace(r[0]) && !IsSpace(r[|r| - 1])
    ensures forall c :: c in r ==> c in s
    decreases |s|
  {
    if s == "" then ""
    else if IsSpace(s[0]) then TrimSpace(s[1..])
    else if IsSpace(s[|s| - 1]) then TrimSpace(s[..|s| - 1])
    else s
  }

  ghost predicate AllSpace(s: string) {
    forall c :: c in s ==> IsSpace(c)
  }

  lemma SpaceBefore(s: string, before: string, r: string, behind: string)
    requires s != "" && IsSpace(s[0]) && AllSpace(before) && s[1..] == before + r + behind
    ensures s == [s[0]] + before + r + behind && AllSpace([s[0]] + before)
  {
    assert s == [s[0]] + s[1..];
  }

  lemma SpaceBehind(s: string, before: string, r: string, behind: string)
    requires s != "" && IsSpace(s[|s| - 1]) && AllSpace(behind) && s[..|s| - 1] == before + r + behind
    ensures s == before + r + (behind + [s[|s| - 1]]) && AllSpace(behind + [s[|s| - 1]])
  {
    assert s == s[..|s| - 1] + [s[|s| - 1]];
  }

  /** Trimming drops white space at both ends and nothing else. */
  lemma {:induction false} TrimSpaceExact(s: string) returns (before: string, behind: string)
    ensures s == before + TrimSpace(s) + behind && AllSpace(before) && AllSpace(behind)
    decreases |s|
  {
    before, behind := "", "";
    if s != "" {
      if IsSpace(s[0]) {
        before, behind := TrimSpaceExact(s[1..]);
        SpaceBefore(s, before, TrimSpace(s), behind);
        before := [s[0]] + before;
      } else if IsSpace(s[|s| - 1]) {
        before, behind := TrimSpaceExact(s[..|s| - 1]);
        SpaceBehind(s, before, TrimSpace(s), behind);
        behind := behind + [s[|s| - 1]];
      }
    }
  }

  /** The variable a reference names: its text without the braces, trimmed. */
  function RefName(span: string): string {
    if |span| >= 4 then TrimSpace(span[2..|span| - 2]) else ""
  }

  function Resolve(span: string, vars: Vars): string {
    if RefName(span) in vars then vars[RefName(span)] else span
  }

  function Substitute(s: string, vars: Vars): string
    decreases |s|
  {
    if s == "" then ""
    else match SpanLen(s)
      case Some(n) => Resolve(s[..n], vars) + Substitute(s[n..], vars)
      case None => [s[0]] + Substitute(s[1..], vars)
  }

  /** The references of `spans` that `vars` leaves alone. */
  function Unbound(spans: seq<string>, vars: Vars): seq<string> {
    if spans == [] then []
    else (if RefName(spans[0]) in vars then [] else [spans[0]]) + Unbound(spans[1..], vars)
  }

  /** A newline comes before any "}}", so nothing that follows can close a reference opened in front. */
  predicate IsCutOff(s: string) {
    '\n' in s && CloseLen(s).None?
  }

  /**
   `v` opens no reference whatever follows it: behind each opening brace comes another
   character, and where that is a brace too the text behind both is cut off.
   */
  ghost predicate CannotOpen(v: string) {
    forall i :: 0 <= i < |v| && v[i] == '{' ==> i + 1 < |v| && (v[i + 1] == '{' ==> IsCutOff(v[i + 2..]))
  }

  /** No value that `s` pulls in can open a new reference. */
  ghost predicate Inert(s: string, vars: Vars) {
    forall m :: m in Spans(s) && RefName(m) in vars ==> CannotOpen(vars[RefName(m)])
  }

  // ---- the scan against the positional definition ----

  /** "}}" ends at `e` and nothing before it breaks the line. */
  ghost predicate ClosesAt(s: string, e: nat) {
    && 2 <= e <= |s|
    && s[e - 2] == '}' && s[e - 1] == '}'
    && forall k :: 0 <= k < e - 2 ==> s[k] != '\n'
  }

  lemma {:induction false} CloseLenIsShortest(s: string)
    ensures CloseLen(s).Some? ==> ClosesAt(s, CloseLen(s).value)
    ensures forall e: nat :: ClosesAt(s, e) ==> CloseLen(s).Some? && CloseLen(s).value <= e
  {
    if |s| >= 2 && s[0] == '}' && s[1] == '}' {
    } else if s == "" || s[0] == '\n' {
      forall e: nat | ClosesAt(s, e)
        ensures false
      {
      }
    } else {
      CloseLenIsShortest(s[1..]);
      forall e: nat | ClosesAt(s, e)
        ensures CloseLen(s).Some? && CloseLen(s).value <= e
      {
        assert ClosesAt(s[1..], e - 1);
      }
    }
  }

  /** At each position the scan takes exactly the shortest reference that starts there. */
  lemma SpanLenIsShortest(s: string, i: nat)
    requires i <= |s|
    ensures SpanLen(s[i..]).Some? ==> IsSpan(s, i, i + SpanLen(s[i..]).value)
    ensures forall e: nat :: IsSpan(s, i, e) ==> SpanLen(s[i..]).Some? && i + SpanLen(s[i..]).value <= e
  {
    if |s| >= i + 2 {
      var u := s[i..][2..];
      CloseLenIsShortest(u);
      if SpanLen(s[i..]).Some? {
        var e := i + SpanLen(s[i..]).value;
        forall k | i + 2 <= k < e - 2
          ensures s[k] != '\n'
        {
          assert u[k - i - 2] != '\n';
        }
      }
      forall e: nat | IsSpan(s, i, e)
        ensures SpanLen(s[i..]).Some? && i + SpanLen(s[i..]).value <= e
      {
        assert ClosesAt(u, e - i - 2);
      }
    }
  }

  /** `HasTemplate` holds exactly when the pattern matches somewhere. */
  lemma {:induction false} HasTemplateIffSpan(s: string)
    ensures HasTemplate(s) <==> exists i: nat, e: nat :: IsSpan(s, i, e)
    ensures HasTemplate(s) <==> Spans(s) != []
    decreases |s|
  {
    if s != "" {
      var t := s[1..];
      HasTemplateIffSpan(t);
      SpanLenIsShortest(s, 0);
      assert s[0..] == s;
      if HasTemplate(t) {
        var i: nat, e: nat :| IsSpan(t, i, e);
        assert IsSpan(s, i + 1, e + 1);
      }
      forall i: nat, e: nat | IsSpan(s, i, e)
        ensures HasTemplate(s)
      {
        if i > 0 {
          assert IsSpan(t, i - 1, e - 1);
        }
      }
    }
  }

  // ---- substitution ----

  lemma {:induction false} CloseLenLocal(s: string, tail: string)
    requires CloseLen(s).Some?
    ensures CloseLen(s[..CloseLen(s).value] + tail) == CloseLen(s)
  {
    var n := CloseLen(s).value;
    var t := s[..n] + tail;
    if |s| >= 2 && s[0] == '}' && s[1] == '}' {
    } else {
      CloseLenLocal(s[1..], tail);
      assert t[1..] == s[1..][..n - 1] + tail;
      assert t[0] == s[0];
      assert n >= 3 ==> t[1] == s[1];
    }
  }

  lemma SpanLenLocal(s: string, tail: string)
    requires SpanLen(s).Some?
    ensures SpanLen(s[..SpanLen(s).value] + tail) == SpanLen(s)
  {
    var n := SpanLen(s).value;
    CloseLenLocal(s[2..], tail);
    assert (s[..n] + tail)[2..] == s[2..][..n - 2] + tail;
  }

  /** A reference at the front of `s` puts a "}}" within reach of anything before it. */
  lemma {:induction false} SpanGivesClose(s: string)
    requires SpanLen(s).Some?
    ensures CloseLen(s).Some? && CloseLen(s[1..]).Some?
  {
    assert s[1..][1..] == s[2..];
    assert CloseLen(s[2..]).Some?;
    assert CloseLen(s[1..]).Some?;
  }

  /** Substitution never brings a "}}" within reach of an opening that had none. */
  lemma {:induction false} SubstituteKeepsOpen(s: string, vars: Vars)
    requires CloseLen(s).None?
    ensures CloseLen(Substitute(s, vars)).None?
    decreases |s|
  {
    if s != "" {
      if SpanLen(s).Some? {
        SpanGivesClose(s);
        assert false;
      }
      var t := s[1..];
      var r := Substitute(t, vars);
      assert Substitute(s, vars) == [s[0]] + r;
      assert ([s[0]] + r)[1..] == r;
      if s[0] != '\n' {
        SubstituteKeepsOpen(t, vars);
        if t != "" {
          if SpanLen(t).Some? {
            SpanGivesClose(t);
            assert false;
          }
          assert r[0] == t[0];
        }
      }
    }
  }

  /** Text that does not open a reference still does not after its tail is substituted. */
  lemma SubstituteKeepsLiteral(s: string, vars: Vars)
    requires s != "" && SpanLen(s).None?
    ensures SpanLen([s[0]] + Substitute(s[1..], vars)).None?
  {
    var t := s[1..];
    var r := [s[0]] + Substitute(t, vars);
    if s[0] == '{' && t != "" {
      if SpanLen(t).Some? {
        assert t[1..] == s[2..];
        SpanGivesClose(t);
        assert false;
      }
      if t[0] == '{' {
        assert t[1..] == s[2..];
        SubstituteKeepsOpen(t[1..], vars);
        assert r[2..] == Substitute(t[1..], vars);
      }
    }
  }

  lemma {:induction false} CutOffStays(s: string, tail: string)
    requires IsCutOff(s)
    ensures CloseLen(s + tail).None?
  {
    if s[0] != '\n' {
      assert (s + tail)[1..] == s[1..] + tail;
      CutOffStays(s[1..], tail);
    }
  }

  lemma CannotOpenTail(v: string)
    requires v != "" && CannotOpen(v)
    ensures CannotOpen(v[1..])
  {
    var t := v[1..];
    forall i | 0 <= i < |t| && t[i] == '{'
      ensures i + 1 < |t| && (t[i + 1] == '{' ==> IsCutOff(t[i + 2..]))
    {
      assert v[i + 1] == '{';
      assert i + 2 < |v| ==> v[i + 2] == t[i + 1];
      assert i + 3 <= |v| ==> v[i + 3..] == t[i + 2..];
    }
  }

  lemma {:induction false} SpansSkipInert(v: string, tail: string)
    requires CannotOpen(v)
    ensures Spans(v + tail) == Spans(tail)
    decreases |v|
  {
    if v == "" {
      assert v + tail == tail;
    } else {
      if v[0] == '{' && v[1] == '{' {
        CutOffStays(v[2..], tail);
        assert (v + tail)[2..] == v[2..] + tail;
      }
      CannotOpenTail(v);
      SpansSkipInert(v[1..], tail);
      assert (v + tail)[1..] == v[1..] + tail;
    }
  }

  lemma NoBraceNoSpan(tail: string, vars: Vars)
    requires tail == "" || tail == "}}" || tail == "{}}"
    ensures Spans(tail) == [] && Substitute(tail, vars) == tail
  {
    LoneBraceIsLiteral(vars);
  }

  /** Where a value can open a reference, one of three template-free tails closes it. */
  lemma CanOpenShows(v: string) returns (tail: string)
    requires !CannotOpen(v)
    ensures tail == "" || tail == "}}" || tail == "{}}"
    ensures HasTemplate(v + tail)
  {
    var i :| 0 <= i < |v| && v[i] == '{' && !(i + 1 < |v| && (v[i + 1] == '{' ==> IsCutOff(v[i + 2..])));
    if i + 1 == |v| {
      tail := "{}}";
      assert IsSpan(v + tail, i, i + 4);
    } else {
      var w := v[i + 2..];
      assert v[i + 1] == '{' && !IsCutOff(w);
      assert forall k :: i + 2 <= k < |v| ==> v[k] == w[k - i - 2];
      if CloseLen(w).Some? {
        tail := "";
        assert v + tail == v;
        CloseLenIsShortest(w);
        assert IsSpan(v, i, i + 2 + CloseLen(w).value);
      } else {
        tail := "}}";
        assert '\n' !in w;
        forall k | i + 2 <= k < |v|
          ensures (v + tail)[k] != '\n'
        {
          assert w[k - i - 2] in w;
        }
        assert IsSpan(v + tail, i, |v| + 2);
      }
    }
    HasTemplateIffSpan(v + tail);
  }

  /** The condition is exact: a value meets it exactly when it never changes what is found behind it. */
  lemma CannotOpenIff(v: string)
    ensures CannotOpen(v) <==> forall tail :: AddsNothing(v, tail)
  {
    if CannotOpen(v) {
      forall tail
        ensures AddsNothing(v, tail)
      {
        SpansSkipInert(v, tail);
      }
    } else {
      var tail := CanOpenShows(v);
      HasTemplateIffSpan(v + tail);
      NoBraceNoSpan(tail, map[]);
      assert !AddsNothing(v, tail);
    }
  }

  /** In front of `tail`, `v` leaves what the scan finds as it is. */
  ghost predicate AddsNothing(v: string, tail: string) {
    Spans(v + tail) == Spans(tail)
  }

  /**
   Scanning the substituted string finds exactly the unbound references of the
   original, in order and unchanged. Only a value that is actually pulled in and
   can open a reference breaks this; other braces and newlines cannot.
   */
  lemma {:induction false} SubstituteLeavesUnbound(s: string, vars: Vars)
    requires Inert(s, vars)
    ensures Spans(Substitute(s, vars)) == Unbound(Spans(s), vars)
    decreases |s|
  {
    if s != "" {
      match SpanLen(s)
      case None =>
        var r := Substitute(s[1..], vars);
        SubstituteLeavesUnbound(s[1..], vars);
        SubstituteKeepsLiteral(s, vars);
        assert ([s[0]] + r)[1..] == r;
      case Some(n) =>
        var m, r := s[..n], Substitute(s[n..], vars);
        assert Spans(s) == [m] + Spans(s[n..]);
        assert m in Spans(s);
        SubstituteLeavesUnbound(s[n..], vars) by {
          assert forall x :: x in Spans(s[n..]) ==> x in Spans(s);
        }
        assert ([m] + Spans(s[n..]))[1..] == Spans(s[n..]);
        if RefName(m) in vars {
          SpansSkipInert(vars[RefName(m)], r);
        } else {
          SpanLenLocal(s, r);
          assert (m + r)[..n] == m && (m + r)[n..] == r;
        }
    }
  }

  lemma {:induction false} UnboundMembers(spans: seq<string>, vars: Vars)
    ensures forall m :: m in Unbound(spans, vars) <==> m in spans && RefName(m) !in vars
  {
    if spans != [] {
      UnboundMembers(spans[1..], vars);
      assert spans == [spans[0]] + spans[1..];
    }
  }

  lemma {:induction false} SubstituteNothing(s: string, vars: Vars)
    requires forall m :: m in Spans(s) ==> RefName(m) !in vars
    ensures Substitute(s, vars) == s
    decreases |s|
  {
    if s != "" {
      match SpanLen(s)
      case None =>
        SubstituteNothing(s[1..], vars);
        assert [s[0]] + s[1..] == s;
      case Some(n) =>
        assert Spans(s) == [s[..n]] + Spans(s[n..]);
        SubstituteNothing(s[n..], vars);
        assert s[..n] + s[n..] == s;
    }
  }

  lemma {:induction false} SpansAreSpans(s: string)
    ensures forall m :: m in Spans(s) ==> IsReference(m)
    decreases |s|
  {
    if s != "" {
      match SpanLen(s)
      case None =>
        SpansAreSpans(s[1..]);
      case Some(n) =>
        SpansAreSpans(s[n..]);
        SpanLenLocal(s, "");
        assert s[..n] + "" == s[..n];
    }
  }

  ghost predicate IsReference(m: string) {
    SpanLen(m) == Some(|m|)
  }

  /** Substituting in `s` leaves exactly its unbound references to be found. */
  ghost predicate IsSafe(s: string, vars: Vars) {
    Spans(Substitute(s, vars)) == Unbound(Spans(s), vars)
  }

  /**
   Substitution is safe for all strings exactly when no value that a reference can
   name opens a reference of its own.
   */
  lemma SubstituteSafeIff(vars: Vars)
    ensures (forall s :: IsSafe(s, vars)) <==>
            (forall m :: IsReference(m) && RefName(m) in vars ==> CannotOpen(vars[RefName(m)]))
  {
    if forall m :: IsReference(m) && RefName(m) in vars ==> CannotOpen(vars[RefName(m)]) {
      forall s
        ensures IsSafe(s, vars)
      {
        SpansAreSpans(s);
        SubstituteLeavesUnbound(s, vars);
      }
    } else {
      var m :| IsReference(m) && RefName(m) in vars && !CannotOpen(vars[RefName(m)]);
      UnsafeTail(m, vars);
    }
  }

  lemma UnsafeTail(m: string, vars: Vars)
    requires IsReference(m) && RefName(m) in vars && !CannotOpen(vars[RefName(m)])
    ensures exists tail :: !IsSafe(m + tail, vars)
  {
    var tail := CanOpenShows(vars[RefName(m)]);
    ReferenceFirst(m, tail, vars);
    NoBraceNoSpan(tail, vars);
    assert Substitute(m + tail, vars) == vars[RefName(m)] + tail;
    HasTemplateIffSpan(vars[RefName(m)] + tail);
    assert Spans(m + tail) == [m];
    assert [m][1..] == [] && Unbound([m], vars) == [];
    assert !IsSafe(m + tail, vars);
  }

  lemma SubstituteIdempotent(s: string, vars: Vars)
    requires Inert(s, vars)
    ensures Substitute(Substitute(s, vars), vars) == Substitute(s, vars)
  {
    SubstituteLeavesUnbound(s, vars);
    UnboundMembers(Spans(s), vars);
    SubstituteNothing(Substitute(s, vars), vars);
  }

  /** A template survives exactly when some reference is unbound. */
  lemma SubstituteResolvesIff(s: string, vars: Vars)
    requires Inert(s, vars)
    ensures HasTemplate(Substitute(s, vars)) <==> exists m :: m in Spans(s) && RefName(m) !in vars
  {
    SubstituteLeavesUnbound(s, vars);
    UnboundMembers(Spans(s), vars);
    HasTemplateIffSpan(Substitute(s, vars));
    var u := Unbound(Spans(s), vars);
    if u != [] {
      assert u[0] in u;
    }
  }

  lemma SubstituteTemplateFree(s: string, vars: Vars)
    requires !HasTemplate(s)
    ensures Substitute(s, vars) == s
  {
    HasTemplateIffSpan(s);
    SubstituteNothing(s, vars);
  }

  /** Both scans read off a reference at the front and go on behind it. */
  lemma ReferenceFirst(m: string, tail: string, vars: Vars)
    requires IsReference(m)
    ensures Spans(m + tail) == [m] + Spans(tail)
    ensures Substitute(m + tail, vars) == Resolve(m, vars) + Substitute(tail, vars)
  {
    assert m[..|m|] == m;
    SpanLenLocal(m, tail);
    assert (m + tail)[..|m|] == m && (m + tail)[|m|..] == tail;
  }

  /** Without the condition it fails: a value "{" in front of "{}}" makes a new reference. */
  lemma OpenBraceMakesTemplate()
    ensures var s, vars := "{{x}}" + "{}}", map["x" := "{"];
            && Spans(s) == ["{{x}}"]
            && Substitute(s, vars) == "{" + "{}}"
            && HasTemplate(Substitute(s, vars))
  {
    var m, vars: Vars := "{{x}}", map["x" := "{"];
    assert m[2..][1..] == "}}";
    assert m[2..3] == "x";
    ReferenceFirst(m, "{}}", vars);
    LoneBraceIsLiteral(vars);
    assert ("{" + "{}}")[2..] == "}}";
  }

  lemma LoneBraceIsLiteral(vars: Vars)
    ensures Spans("{}}") == [] && Substitute("{}}", vars) == "{}}"
    ensures Spans("}}") == [] && Substitute("}}", vars) == "}}"
  {
    assert "{}}"[1..] == "}}" && "}}"[1..] == "}";
    assert Spans("}") == [] && Substitute("}", vars) == "}";
    assert Spans("}}") == [] && Substitute("}}", vars) == "}}";
  }

  // ---- references as they are written ----

  lemma {:induction false} BraceFree(s: string)
    requires '{' !in s
    ensures !HasTemplate(s)
  {
    if s != "" {
      assert s[0] in s;
      BraceFree(s[1..]);
    }
  }

  lemma {:induction false} TrimLeading(before: string, s: string)
    requires AllSpace(before)
    ensures TrimSpace(before + s) == TrimSpace(s)
  {
    if before == "" {
      assert before + s == s;
    } else {
      assert before[0] in before && (before + s)[1..] == before[1..] + s;
      TrimLeading(before[1..], s);
    }
  }

  lemma {:induction false} TrimTrailing(s: string, behind: string)
    requires AllSpace(behind) && s != "" && !IsSpace(s[0]) && !IsSpace(s[|s| - 1])
    ensures TrimSpace(s + behind) == s
    decreases |behind|
  {
    if behind == "" {
      assert s + behind == s;
    } else {
      var init, last := behind[..|behind| - 1], behind[|behind| - 1];
      assert last in behind && (s + behind)[..|s + behind| - 1] == s + init;
      TrimTrailing(s, init);
    }
  }

  lemma TrimBetween(before: string, name: string, behind: string)
    requires AllSpace(before) && AllSpace(behind)
    requires name != "" ==> !IsSpace(name[0]) && !IsSpace(name[|name| - 1])
    ensures TrimSpace(before + (name + behind)) == name
  {
    TrimLeading(before, name + behind);
    if name == "" {
      TrimLeading(behind, "");
      assert behind + "" == behind && name + behind == behind;
    } else {
      TrimTrailing(name, behind);
    }
  }

  lemma InBraces(before: string, name: string, behind: string)
    ensures "{{" + before + name + behind + "}}" == "{{" + (before + (name + behind)) + "}}"
  {
  }

  lemma {:induction false} ClosesBehind(inner: string, tail: string)
    requires '}' !in inner && '\n' !in inner
    ensures CloseLen(inner + "}}" + tail) == Some(|inner| + 2)
  {
    var s := inner + "}}" + tail;
    if inner != "" {
      assert s[0] == inner[0] && inner[0] in inner;
      assert s[1..] == inner[1..] + "}}" + tail;
      ClosesBehind(inner[1..], tail);
    }
  }

  lemma WrittenReference(inner: string)
    requires '}' !in inner && '\n' !in inner
    ensures IsReference("{{" + inner + "}}")
    ensures RefName("{{" + inner + "}}") == TrimSpace(inner)
  {
    var m := "{{" + inner + "}}";
    ClosesBehind(inner, "");
    assert m[2..] == inner + "}}" + "";
    assert m[2..|m| - 2] == inner;
  }

  /**
   A reference written with any white space around its name stands for the value of
   that name, and stays as written when there is none.
   */
  lemma SpacedReference(before: string, name: string, behind: string, tail: string, vars: Vars)
    requires AllSpace(before) && AllSpace(behind) && '\n' !in before + name + behind && '}' !in name
    requires name != "" ==> !IsSpace(name[0]) && !IsSpace(name[|name| - 1])
    ensures var m := "{{" + before + name + behind + "}}";
            && Substitute(m + tail, vars) == (if name in vars then vars[name] else m) + Substitute(tail, vars)
            && Spans(m + tail) == [m] + Spans(tail)
  {
    var inner := before + (name + behind);
    assert inner == before + name + behind && '}' !in inner;
    InBraces(before, name, behind);
    WrittenReference(inner);
    TrimBetween(before, name, behind);
    ReferenceFirst("{{" + inner + "}}", tail, vars);
  }

  /** Text without an opening brace stays in front of whatever follows. */
  lemma {:induction false} LiteralFirst(text: string, tail: string, vars: Vars)
    requires '{' !in text
    ensures Substitute(text + tail, vars) == text + Substitute(tail, vars)
    ensures Spans(text + tail) == Spans(tail)
  {
    if text == "" {
      assert text + tail == tail;
    } else {
      assert text[0] in text && (text + tail)[1..] == text[1..] + tail;
      LiteralFirst(text[1..], tail, vars);
      assert [text[0]] + (text[1..] + Substitute(tail, vars)) == text + Substitute(tail, vars);
    }
  }

  /** The usual spelling, in the middle of a string. */
  lemma NamedInside(text: string, name: string, rest: string, vars: Vars)
    requires '{' !in text && '{' !in rest && '}' !in name && ' ' !in name && '\n' !in name
    requires name != "" && !IsSpace(name[0]) && !IsSpace(name[|name| - 1])
    ensures var m := "{{ " + name + " }}";
            Substitute(text + (m + rest), vars) == text + ((if name in vars then vars[name] else m) + rest)
  {
    var m := "{{" + " " + name + " " + "}}";
    assert m == "{{ " + name + " }}";
    assert AllSpace(" ") && '\n' !in " ";
    SpacedReference(" ", name, " ", rest, vars);
    LiteralFirst(text, m + rest, vars);
    LiteralFirst(rest, "", vars);
    assert rest + "" == rest;
  }
}
