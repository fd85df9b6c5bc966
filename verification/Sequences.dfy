/** Sequences without repeats, and the order-preserving removal of repeats. */
module Sequences {

  function Elements<T>(s: seq<T>): set<T> {
    set x | x in s
  }

  ghost predicate NoRepeats<T>(s: seq<T>) {
    forall i, j :: 0 <= i < j < |s| ==> s[i] != s[j]
  }

  lemma ElementsAppend<T>(a: seq<T>, b: seq<T>)
    ensures Elements(a + b) == Elements(a) + Elements(b)
  {
    assert forall x :: x in a + b <==> x in a || x in b;
  }

  /** What a loop that appends `more` to `done` relies on, with `rest` still to come. */
  lemma Shift<T>(done: seq<T>, more: seq<T>, rest: seq<T>)
    ensures done + (more + rest) == done + more + rest
    ensures more == [] ==> done + more == done
  {
  }

  /** `s` without the elements that occurred before. */
  function FirstOccurrences<T(==,!new)>(s: seq<T>): (r: seq<T>)
    ensures forall x :: x in r <==> x in s
    ensures NoRepeats(r)
  {
    if s == [] then []
    else
      var init, last := s[..|s| - 1], s[|s| - 1];
      assert s == init + [last];
      FirstOccurrences(init) + if last in init then [] else [last]
  }

  function FirstIndex<T(==)>(s: seq<T>, x: T): (k: nat)
    requires x in s
    ensures k < |s| && s[k] == x && forall j :: 0 <= j < k ==> s[j] != x
  {
    if s[0] == x then 0
    else
      assert s == [s[0]] + s[1..];
      FirstIndex(s[1..], x) + 1
  }

  lemma FirstIndexIsLeast<T>(s: seq<T>, k: nat)
    requires k < |s|
    ensures FirstIndex(s, s[k]) <= k
    ensures s[k] !in s[..k] ==> FirstIndex(s, s[k]) == k
  {
    var f := FirstIndex(s, s[k]);
    if f < k {
      assert s[..k][f] == s[k];
    }
  }

  /** Removing repeats keeps the order in which elements first occurred. */
  lemma {:induction false} FirstOccurrencesOrdered<T(!new)>(s: seq<T>, i: nat, j: nat)
    requires i < j < |FirstOccurrences(s)|
    ensures FirstIndex(s, FirstOccurrences(s)[i]) < FirstIndex(s, FirstOccurrences(s)[j])
  {
    var init, last := s[..|s| - 1], s[|s| - 1];
    var r := FirstOccurrences(s);
    assert s == init + [last];
    FirstIndexInPrefix(init, last, r[i]);
    if j < |FirstOccurrences(init)| {
      FirstOccurrencesOrdered(init, i, j);
      FirstIndexInPrefix(init, last, r[j]);
    } else {
      FirstIndexIsLeast(s, |s| - 1);
    }
  }

  lemma FirstIndexInPrefix<T>(init: seq<T>, last: T, x: T)
    requires x in init
    ensures FirstIndex(init + [last], x) == FirstIndex(init, x)
  {
    var s := init + [last];
    var k := FirstIndex(init, x);
    FirstIndexIsLeast(s, k);
  }

  method Dedupe<T(==,!new)>(s: seq<T>) returns (out: seq<T>)
    ensures out == FirstOccurrences(s)
  {
    var seen: set<T> := {};
    out := [];
    for i := 0 to |s|
      invariant seen == Elements(s[..i])
      invariant out == FirstOccurrences(s[..i])
    {
      assert s[..i + 1][..i] == s[..i] && s[..i + 1] == s[..i] + [s[i]];
      if s[i] !in seen {
        seen := seen + {s[i]};
        out := out + [s[i]];
      }
    }
    assert s[..|s|] == s;
  }
}
