/** Python's `sorted` on strings: the order is lexicographic by code point, a proper prefix
    coming first. */
module Sorting {

  /** `a <= b` for Python strings. */
  predicate Below(a: string, b: string)
    decreases |a|
  {
    if a == [] then true
    else if b == [] then false
    else if a[0] != b[0] then a[0] < b[0]
    else Below(a[1..], b[1..])
  }

  /** The lexicographic order spelled out: `a` is a prefix of `b`, or its character is the
      smaller one at the first position where the two differ. */
  ghost predicate Lexicographic(a: string, b: string) {
    (|a| <= |b| && a == b[..|a|]) ||
    exists i :: 0 <= i < |a| && i < |b| && a[..i] == b[..i] && a[i] < b[i]
  }

  /** `Below` is the lexicographic order. */
  lemma {:induction false} BelowLexicographic(a: string, b: string)
    ensures Below(a, b) <==> Lexicographic(a, b)
    decreases |a|
  {
    if a == [] {
      assert a == b[..0];
    } else if b != [] && a[0] != b[0] {
      LexicographicFirstDiffers(a, b);
    } else if b != [] {
      BelowLexicographic(a[1..], b[1..]);
      LexicographicSameHead(a, b);
    }
  }

  lemma LexicographicFirstDiffers(a: string, b: string)
    requires a != [] && b != [] && a[0] != b[0]
    ensures Lexicographic(a, b) <==> a[0] < b[0]
  {
    assert a[..0] == b[..0];
    assert |a| <= |b| ==> b[..|a|][0] == b[0];
    forall i | 0 <= i < |a| && i < |b| && a[..i] == b[..i] && a[i] < b[i] ensures a[0] < b[0] {
      assert forall j :: 0 <= j < i ==> a[j] == a[..i][j] && b[j] == b[..i][j];
    }
  }

  lemma LexicographicSameHead(a: string, b: string)
    requires a != [] && b != [] && a[0] == b[0]
    ensures Lexicographic(a, b) <==> Lexicographic(a[1..], b[1..])
  {
    var a', b' := a[1..], b[1..];
    PrefixSameHead(a, b);
    forall i' | 0 <= i' < |a'| && i' < |b'| && a'[..i'] == b'[..i'] && a'[i'] < b'[i']
      ensures 0 <= i' + 1 < |a| && i' + 1 < |b| && a[..i' + 1] == b[..i' + 1] && a[i' + 1] < b[i' + 1]
    {
      assert a[..i' + 1] == [a[0]] + a'[..i'] && b[..i' + 1] == [b[0]] + b'[..i'];
    }
    forall i | 0 <= i < |a| && i < |b| && a[..i] == b[..i] && a[i] < b[i]
      ensures 0 <= i - 1 < |a'| && i - 1 < |b'| && a'[..i - 1] == b'[..i - 1] && a'[i - 1] < b'[i - 1]
    {
      assert i >= 1;
      assert a'[..i - 1] == a[..i][1..] && b'[..i - 1] == b[..i][1..];
    }
  }

  lemma PrefixSameHead(a: string, b: string)
    requires a != [] && b != [] && a[0] == b[0]
    ensures (|a| <= |b| && a == b[..|a|]) <==> (|a[1..]| <= |b[1..]| && a[1..] == b[1..][..|a[1..]|])
  {
    if |a| <= |b| {
      assert a == [a[0]] + a[1..];
      assert b[..|a|] == [b[0]] + b[1..][..|a[1..]|];
    }
  }

  lemma {:induction false} BelowReflexive(a: string)
    ensures Below(a, a)
    decreases |a|
  {
    if a != [] {
      BelowReflexive(a[1..]);
    }
  }

  lemma {:induction false} BelowTotal(a: string, b: string)
    ensures Below(a, b) || Below(b, a)
    decreases |a|
  {
    if a != [] && b != [] && a[0] == b[0] {
      BelowTotal(a[1..], b[1..]);
    }
  }

  lemma {:induction false} BelowAntisymmetric(a: string, b: string)
    requires Below(a, b) && Below(b, a)
    ensures a == b
    decreases |a|
  {
    if a != [] && b != [] {
      BelowAntisymmetric(a[1..], b[1..]);
      assert a == [a[0]] + a[1..] && b == [b[0]] + b[1..];
    }
  }

  lemma {:induction false} BelowTransitive(a: string, b: string, c: string)
    requires Below(a, b) && Below(b, c)
    ensures Below(a, c)
    decreases |a|
  {
    if a != [] && b != [] && c != [] && a[0] == b[0] && b[0] == c[0] {
      BelowTransitive(a[1..], b[1..], c[1..]);
    }
  }

  /** Every pair of positions is in order. */
  predicate Sorted(s: seq<string>) {
    forall i, j :: 0 <= i < j < |s| ==> Below(s[i], s[j])
  }

  /** `x` put into a sorted list before the first element it is strictly below. */
  function Insert(x: string, s: seq<string>): (r: seq<string>)
    requires Sorted(s)
    ensures Sorted(r)
    ensures multiset(r) == multiset(s) + multiset{x}
  {
    if s == [] then [x]
    else if Below(x, s[0]) then
      PrependSorted(x, s);
      [x] + s
    else
      BelowTotal(x, s[0]);
      var t := Insert(x, s[1..]);
      assert s == [s[0]] + s[1..];
      BelowAllAfterInsert(x, s, t);
      PrependSorted(s[0], t);
      [s[0]] + t
  }

  /** An element below the head of a sorted list can go before it. */
  lemma PrependSorted(x: string, s: seq<string>)
    requires Sorted(s) && (s == [] || Below(x, s[0]))
    ensures Sorted([x] + s)
  {
    forall j | 0 <= j < |s| ensures Below(x, s[j]) {
      if j > 0 {
        BelowTransitive(x, s[0], s[j]);
      }
    }
  }

  lemma BelowAllAfterInsert(x: string, s: seq<string>, t: seq<string>)
    requires s != [] && Sorted(s) && Below(s[0], x)
    requires multiset(t) == multiset(s[1..]) + multiset{x}
    ensures forall k :: 0 <= k < |t| ==> Below(s[0], t[k])
  {
    forall k | 0 <= k < |t| ensures Below(s[0], t[k]) {
      assert t[k] in multiset(t);
      if t[k] != x {
        assert t[k] in multiset(s[1..]);
        var j :| 0 <= j < |s[1..]| && s[1..][j] == t[k];
        assert s[1 + j] == t[k];
      }
    }
  }

  /** `sorted(s)`: a sorted rearrangement of `s`. */
  function Sort(s: seq<string>): (r: seq<string>)
    ensures Sorted(r)
    ensures multiset(r) == multiset(s)
  {
    if s == [] then []
    else
      assert s == [s[0]] + s[1..];
      Insert(s[0], Sort(s[1..]))
  }

  /** Any two sorted lists with the same elements are the same list, so the sorted output
      does not depend on the order elements were collected in. */
  lemma {:induction false} SortedUnique(a: seq<string>, b: seq<string>)
    requires Sorted(a) && Sorted(b) && multiset(a) == multiset(b)
    ensures a == b
    decreases |a|
  {
    if a != [] {
      SortedHeads(a, b);
      SortedTail(a);
      SortedTail(b);
      SortedUnique(a[1..], b[1..]);
      assert a == [a[0]] + a[1..] && b == [b[0]] + b[1..];
    } else {
      assert |b| == |multiset(b)|;
    }
  }

  lemma SortedTail(a: seq<string>)
    requires Sorted(a) && a != []
    ensures Sorted(a[1..])
    ensures multiset(a[1..]) == multiset(a) - multiset{a[0]}
  {
    assert a == [a[0]] + a[1..];
    forall i, j | 0 <= i < j < |a[1..]| ensures Below(a[1..][i], a[1..][j]) {
      assert a[1..][i] == a[i + 1] && a[1..][j] == a[j + 1];
    }
  }

  /** Sorted lists with the same non-empty contents start with the same element. */
  lemma SortedHeads(a: seq<string>, b: seq<string>)
    requires Sorted(a) && Sorted(b) && multiset(a) == multiset(b) && a != []
    ensures b != [] && a[0] == b[0]
  {
    assert a[0] in multiset(b);
    var j :| 0 <= j < |b| && b[j] == a[0];
    assert b[0] in multiset(a);
    var i :| 0 <= i < |a| && a[i] == b[0];
    if i > 0 { assert Below(a[0], a[i]); } else { BelowReflexive(a[0]); }
    if j > 0 { assert Below(b[0], b[j]); } else { BelowReflexive(b[0]); }
    BelowAntisymmetric(a[0], b[0]);
  }

  /** `sorted(s)` of a set: each element once, in order. The elements are taken out of the
      set in an arbitrary order and then sorted, which gives the same list whatever that
      order is (`SortedUnique`). */
  method SortSet(s: set<string>) returns (r: seq<string>)
    ensures Sorted(r)
    ensures multiset(r) == multiset(s)
    ensures forall i, j :: 0 <= i < j < |r| ==> r[i] != r[j]
  {
    var rest := s;
    var items: seq<string> := [];
    while rest != {}
      invariant rest <= s
      invariant multiset(items) + multiset(rest) == multiset(s)
      decreases |rest|
    {
      var x :| x in rest;
      items := items + [x];
      rest := rest - {x};
    }
    r := Sort(items);
    ElementsOfSetDistinct(r, s);
  }

  /** A list holding the elements of a set, each as often as the set does, repeats none. */
  lemma ElementsOfSetDistinct(r: seq<string>, s: set<string>)
    requires multiset(r) == multiset(s)
    ensures forall i, j :: 0 <= i < j < |r| ==> r[i] != r[j]
  {
    forall i, j | 0 <= i < j < |r| ensures r[i] != r[j] {
      var x := r[i];
      assert r == r[..j] + [r[j]] + r[j + 1..];
      assert x in r[..j];
      assert multiset(r)[x] == multiset(r[..j])[x] + multiset([r[j]])[x] + multiset(r[j + 1..])[x];
    }
  }
}
