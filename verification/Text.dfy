/** String operations of Go's `strings` package that the agent relies on. */
module Text {
  import opened Sequences

  predicate HasPrefix(s: string, prefix: string) {
    |prefix| <= |s| && s[..|prefix|] == prefix
  }

  predicate HasSuffix(s: string, suffix: string) {
    |suffix| <= |s| && s[|s| - |suffix|..] == suffix
  }

  predicate Contains(s: string, sub: string) {
    HasPrefix(s, sub) || (s != "" && Contains(s[1..], sub))
  }

  /** Replaces the non-overlapping occurrences of `old`, left to right. */
  function ReplaceAll(s: string, was: string, by_: string): string
    requires was != ""
    decreases |s|
  {
    if s == "" then ""
    else if HasPrefix(s, was) then by_ + ReplaceAll(s[|was|..], was, by_)
    else [s[0]] + ReplaceAll(s[1..], was, by_)
  }

  /** `sub` stands at position `i`. */
  ghost predicate OccursAt(s: string, sub: string, i: nat) {
    i + |sub| <= |s| && s[i..i + |sub|] == sub
  }

  lemma OccursAtFront(s: string, sub: string)
    ensures OccursAt(s, sub, 0) <==> HasPrefix(s, sub)
  {
    assert |sub| <= |s| ==> s[0..|sub|] == s[..|sub|];
  }

  lemma OccursAtTail(s: string, sub: string, i: nat)
    requires s != ""
    ensures OccursAt(s, sub, i + 1) <==> OccursAt(s[1..], sub, i)
  {
    assert i + 1 + |sub| <= |s| ==> s[i + 1..i + 1 + |sub|] == s[1..][i..i + |sub|];
  }

  lemma {:induction false} ContainsIff(s: string, sub: string)
    ensures Contains(s, sub) <==> exists i: nat :: OccursAt(s, sub, i)
  {
    OccursAtFront(s, sub);
    if s != "" {
      ContainsIff(s[1..], sub);
      if i: nat :| OccursAt(s[1..], sub, i) {
        OccursAtTail(s, sub, i);
        assert OccursAt(s, sub, i + 1);
      }
      if i: nat :| OccursAt(s, sub, i) && i > 0 {
        OccursAtTail(s, sub, i - 1);
        assert OccursAt(s[1..], sub, i - 1);
      }
    }
  }

  /** Text in front of the first occurrence stays, that occurrence is replaced, and so on behind it. */
  lemma {:induction false} ReplaceAllFirst(front: string, was: string, rest: string, by_: string)
    requires was != "" && forall i: nat :: OccursAt(front + was + rest, was, i) ==> i >= |front|
    ensures ReplaceAll(front + was + rest, was, by_) == front + by_ + ReplaceAll(rest, was, by_)
    decreases |front|
  {
    var s := front + was + rest;
    if front == "" {
      assert s[..|was|] == was && s[|was|..] == rest;
    } else {
      assert s[1..] == front[1..] + was + rest && s[0] == front[0];
      OccursAtFront(s, was);
      forall i: nat | OccursAt(s[1..], was, i)
        ensures i >= |front[1..]|
      {
        OccursAtTail(s, was, i);
        assert OccursAt(s, was, i + 1);
      }
      ReplaceAllFirst(front[1..], was, rest, by_);
      var done := front[1..] + by_;
      Shift([s[0]], done, ReplaceAll(rest, was, by_));
      assert [s[0]] + done == front + by_;
    }
  }

  lemma {:induction false} ReplaceAllNothing(s: string, was: string, by_: string)
    requires was != "" && !Contains(s, was)
    ensures ReplaceAll(s, was, by_) == s
  {
    if s != "" {
      ReplaceAllNothing(s[1..], was, by_);
      assert s == [s[0]] + s[1..];
    }
  }

  /** The part after the last dot: an Ansible module name without its collection. */
  function AfterLastDot(s: string): (r: string)
    ensures '.' !in r && HasSuffix(s, r)
    ensures |r| < |s| ==> s[|s| - |r| - 1] == '.'
  {
    if s == "" || s[|s| - 1] == '.' then ""
    else
      var init := s[..|s| - 1];
      var r := AfterLastDot(init);
      assert s == init + [s[|s| - 1]];
      r + [s[|s| - 1]]
  }

  function Split(s: string, sep: char): (parts: seq<string>)
    ensures |parts| > 0
    ensures forall p :: p in parts ==> sep !in p
  {
    if s == "" then [""]
    else
      var rest := Split(s[1..], sep);
      if s[0] == sep then [""] + rest else [[s[0]] + rest[0]] + rest[1..]
  }

  function JoinWith(parts: seq<string>, sep: char): string {
    if parts == [] then ""
    else if |parts| == 1 then parts[0]
    else parts[0] + [sep] + JoinWith(parts[1..], sep)
  }

  lemma {:induction false} JoinSplit(s: string, sep: char)
    ensures JoinWith(Split(s, sep), sep) == s
  {
    if s != "" {
      var rest := Split(s[1..], sep);
      JoinSplit(s[1..], sep);
      assert s == [s[0]] + s[1..];
      var parts := Split(s, sep);
      if s[0] == sep {
        assert parts[1..] == rest;
      } else {
        assert parts[1..] == rest[1..];
      }
    }
  }

  lemma {:induction false} JoinLast(parts: seq<string>, last: string, sep: char)
    ensures JoinWith(parts + [last], sep) == if parts == [] then last else JoinWith(parts, sep) + [sep] + last
  {
    if parts != [] {
      var tail := parts[1..];
      JoinLast(tail, last, sep);
      assert (parts + [last])[1..] == tail + [last];
      if tail == [] {
        assert JoinWith(parts + [last], sep) == parts[0] + [sep] + last;
      } else {
        var more := JoinWith(tail, sep);
        assert parts[0] + [sep] + (more + [sep] + last) == parts[0] + [sep] + more + [sep] + last;
      }
    }
  }

  lemma {:induction false} SplitPrefix(p: string, s: string, sep: char)
    requires sep !in p
    ensures Split(p + s, sep) == [p + Split(s, sep)[0]] + Split(s, sep)[1..]
  {
    var rest := Split(s, sep);
    if p == "" {
      assert p + s == s && p + rest[0] == rest[0];
    } else {
      assert p[0] in p && p == [p[0]] + p[1..];
      SplitPrefix(p[1..], s, sep);
      assert (p + s)[1..] == p[1..] + s;
      Shift([p[0]], p[1..], rest[0]);
      var tail := [p[1..] + rest[0]] + rest[1..];
      assert tail[0] == p[1..] + rest[0] && tail[1..] == rest[1..];
    }
  }

  lemma {:induction false} SplitConcat(a: string, b: string, sep: char)
    ensures Split(a + ([sep] + b), sep) == Split(a, sep) + Split(b, sep)
  {
    var tail := [sep] + b;
    if a == "" {
      assert a + tail == tail && tail[1..] == b;
    } else {
      SplitConcat(a[1..], b, sep);
      SplitStep(a, tail, Split(a[1..], sep), Split(b, sep), sep);
    }
  }

  lemma SplitStep(a: string, tail: string, rest: seq<string>, more: seq<string>, sep: char)
    requires a != "" && rest == Split(a[1..], sep) && Split(a[1..] + tail, sep) == rest + more
    ensures Split(a + tail, sep) == Split(a, sep) + more
  {
    assert (a + tail)[1..] == a[1..] + tail;
    if a[0] == sep {
      Shift([""], rest, more);
      assert Split(a + tail, sep) == [""] + (rest + more);
    } else {
      var head := [[a[0]] + rest[0]];
      assert (rest + more)[1..] == rest[1..] + more;
      Shift(head, rest[1..], more);
      assert Split(a + tail, sep) == head + (rest[1..] + more);
    }
  }

  lemma {:induction false} SplitJoin(parts: seq<string>, sep: char)
    requires parts != [] && forall p :: p in parts ==> sep !in p
    ensures Split(JoinWith(parts, sep), sep) == parts
  {
    if |parts| == 1 {
      SplitPrefix(parts[0], "", sep);
      assert parts[0] + "" == parts[0];
    } else {
      var rest := JoinWith(parts[1..], sep);
      SplitJoin(parts[1..], sep);
      SplitPrefix(parts[0], [sep] + rest, sep);
      assert ([sep] + rest)[1..] == rest;
      assert parts[0] + [sep] + rest == parts[0] + ([sep] + rest);
      assert Split([sep] + rest, sep) == [""] + parts[1..];
      assert parts[0] + "" == parts[0];
    }
  }
}
