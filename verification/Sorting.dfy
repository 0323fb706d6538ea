/** Go's order on strings, and sorted lists of them. */
module Sorting {

  /** `<=` on strings: the order of their characters. */
  predicate Precedes(a: string, b: string) {
    if a == "" then true
    else if b == "" then false
    else if a[0] != b[0] then a[0] < b[0]
    else Precedes(a[1..], b[1..])
  }

  lemma {:induction false} PrecedesIsTotal(a: string, b: string)
    ensures Precedes(a, b) || Precedes(b, a)
  {
    if a != "" && b != "" && a[0] == b[0] {
      PrecedesIsTotal(a[1..], b[1..]);
    }
  }

  lemma {:induction false} PrecedesBothWays(a: string, b: string)
    requires Precedes(a, b) && Precedes(b, a)
    ensures a == b
  {
    if a != "" {
      PrecedesBothWays(a[1..], b[1..]);
      assert a == [a[0]] + a[1..] && b == [b[0]] + b[1..];
    }
  }

  lemma {:induction false} PrecedesTransitive(a: string, b: string, c: string)
    requires Precedes(a, b) && Precedes(b, c)
    ensures Precedes(a, c)
  {
    if a != "" && a[0] == b[0] == c[0] {
      PrecedesTransitive(a[1..], b[1..], c[1..]);
    }
  }

  lemma {:induction false} PrecedesReflexive(a: string)
    ensures Precedes(a, a)
  {
    if a != "" {
      PrecedesReflexive(a[1..]);
    }
  }

  ghost predicate Sorted(s: seq<string>) {
    forall i, j :: 0 <= i < j < |s| ==> Precedes(s[i], s[j])
  }

  ghost predicate StrictlySorted(s: seq<string>) {
    forall i, j :: 0 <= i < j < |s| ==> Precedes(s[i], s[j]) && s[i] != s[j]
  }

  lemma SameHead(a: seq<string>, b: seq<string>)
    requires Sorted(a) && Sorted(b) && a != [] && b != []
    requires a[0] in b && b[0] in a
    ensures a[0] == b[0]
  {
    HeadIsLeast(a, b[0]);
    HeadIsLeast(b, a[0]);
    PrecedesBothWays(a[0], b[0]);
  }

  lemma TailMultiset(s: seq<string>)
    requires s != []
    ensures multiset(s[1..]) == multiset(s) - multiset{s[0]}
  {
    assert s == [s[0]] + s[1..];
  }

  /** There is one way to sort a list. */
  lemma {:induction false} SortedIsUnique(a: seq<string>, b: seq<string>)
    requires Sorted(a) && Sorted(b) && multiset(a) == multiset(b)
    ensures a == b
  {
    assert |a| == |multiset(a)| == |multiset(b)| == |b|;
    if a != [] {
      SortedSet(a, b);
      assert a[0] in a && b[0] in b;
      SameHead(a, b);
      TailMultiset(a);
      TailMultiset(b);
      SortedIsUnique(a[1..], b[1..]);
      assert a == [a[0]] + a[1..] && b == [b[0]] + b[1..];
    }
  }

  lemma HeadIsLeast(s: seq<string>, x: string)
    requires Sorted(s) && x in s
    ensures Precedes(s[0], x)
  {
    PrecedesReflexive(x);
  }

  lemma {:induction false} StrictlySortedIsUnique(a: seq<string>, b: seq<string>)
    requires StrictlySorted(a) && StrictlySorted(b) && forall x :: x in a <==> x in b
    ensures a == b
  {
    assert a != [] ==> a[0] in b;
    assert b != [] ==> b[0] in a;
    if a != [] {
      SameHead(a, b);
      forall x ensures x in a[1..] <==> x in b[1..] {
        TailOfStrict(a, x);
        TailOfStrict(b, x);
      }
      StrictlySortedIsUnique(a[1..], b[1..]);
      assert a == [a[0]] + a[1..] && b == [b[0]] + b[1..];
    }
  }

  lemma TailOfStrict(s: seq<string>, x: string)
    requires StrictlySorted(s) && s != []
    ensures x in s[1..] <==> x in s && x != s[0]
  {
    if x in s[1..] {
      var i :| 0 <= i < |s| - 1 && s[1..][i] == x;
      assert s[i + 1] == x;
    }
    assert s == [s[0]] + s[1..];
  }

  /** sort.Strings. */
  method SortStrings(s: seq<string>) returns (t: seq<string>)
    ensures Sorted(t) && multiset(t) == multiset(s)
  {
    t := [];
    for i := 0 to |s|
      invariant Sorted(t) && multiset(t) == multiset(s[..i])
    {
      assert s[..i + 1] == s[..i] + [s[i]];
      t := InsertSorted(t, s[i]);
    }
    assert s[..|s|] == s;
  }

  method InsertSorted(s: seq<string>, x: string) returns (t: seq<string>)
    requires Sorted(s)
    ensures Sorted(t) && multiset(t) == multiset(s) + multiset{x}
  {
    var k := 0;
    while k < |s| && Precedes(s[k], x)
      invariant 0 <= k <= |s|
      invariant forall i :: 0 <= i < k ==> Precedes(s[i], x)
    {
      k := k + 1;
    }
    forall i | k <= i < |s| ensures Precedes(x, s[i]) {
      PrecedesIsTotal(s[k], x);
      if i > k {
        PrecedesTransitive(x, s[k], s[i]);
      }
    }
    t := s[..k] + [x] + s[k..];
    assert s == s[..k] + s[k..];
  }

  lemma SortedSet(s: seq<string>, t: seq<string>)
    requires multiset(s) == multiset(t)
    ensures forall x :: x in s <==> x in t
  {
    assert forall x :: x in s <==> x in multiset(s);
    assert forall x :: x in t <==> x in multiset(t);
  }

  /** uniqueSorted: each name once, in order. */
  method UniqueSorted(names: seq<string>) returns (out: seq<string>)
    ensures StrictlySorted(out) && forall x :: x in out <==> x in names
  {
    var sorted := SortStrings(names);
    SortedSet(sorted, names);
    out := [];
    for i := 0 to |sorted|
      invariant StrictlySorted(out) && forall x :: x in out <==> x in sorted[..i]
      invariant forall x :: x in out ==> i > 0 && Precedes(x, out[|out| - 1])
      invariant out != [] ==> i > 0 && out[|out| - 1] == sorted[i - 1]
      invariant out == [] ==> i == 0
    {
      assert sorted[..i + 1] == sorted[..i] + [sorted[i]];
      if |out| > 0 && out[|out| - 1] == sorted[i] {
        continue;
      }
      PrecedesReflexive(sorted[i]);
      forall x | x in out ensures Precedes(x, sorted[i]) && x != sorted[i] {
        PrecedesTransitive(x, sorted[i - 1], sorted[i]);
        if x == sorted[i] {
          PrecedesBothWays(sorted[i - 1], sorted[i]);
        }
      }
      forall j | 0 <= j < |out| ensures Precedes(out[j], sorted[i]) && out[j] != sorted[i] {
        assert out[j] in out;
      }
      out := out + [sorted[i]];
    }
    assert sorted[..|sorted|] == sorted;
  }
}
