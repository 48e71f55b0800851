/**
 * List shapes the core builds over and over: an order-preserving filter (a Python list
 * comprehension with an `if`), the prefix cut `xs[:n]`, first-seen deduplication, and the
 * subsequence relation that relates each of them to its input.
 */
module Lists {

  /** `[x for x in s if p(x)]`, written by its last element as the source loops append. */
  function Filter<T>(s: seq<T>, p: T -> bool): (r: seq<T>)
    ensures |r| <= |s|
    ensures forall k :: 0 <= k < |r| ==> p(r[k])
  {
    if s == [] then [] else Filter(s[..|s| - 1], p) + (if p(s[|s| - 1]) then [s[|s| - 1]] else [])
  }

  lemma {:induction false} FilterMembers<T>(s: seq<T>, p: T -> bool, x: T)
    ensures x in Filter(s, p) <==> x in s && p(x)
  {
    if s != [] {
      FilterMembers(s[..|s| - 1], p, x);
      assert s == s[..|s| - 1] + [s[|s| - 1]];
    }
  }

  /** Filtering a sequence keeps one element after another. */
  lemma FilterSnoc<T>(s: seq<T>, x: T, p: T -> bool)
    ensures Filter(s + [x], p) == Filter(s, p) + (if p(x) then [x] else [])
  {
    assert (s + [x])[..|s|] == s;
  }

  lemma {:induction false} FilterAppend<T>(s: seq<T>, t: seq<T>, p: T -> bool)
    ensures Filter(s + t, p) == Filter(s, p) + Filter(t, p)
    decreases |t|
  {
    if t == [] {
      assert s + t == s;
    } else {
      assert (s + t)[..|s + t| - 1] == s + t[..|t| - 1];
      FilterAppend(s, t[..|t| - 1], p);
    }
  }

  /** A slice is its first element followed by the rest. */
  lemma SliceCons<T>(s: seq<T>, p: nat, q: nat)
    requires p < q <= |s|
    ensures s[p..q] == [s[p]] + s[p + 1..q]
  {
  }

  lemma ConcatAssoc<T>(a: seq<T>, b: seq<T>, c: seq<T>)
    ensures a + (b + c) == (a + b) + c
  {
  }

  /** Nothing is kept exactly when no element satisfies the condition. */
  /** Nothing in `t[..n]` satisfies `p` when its head does not and nothing in the first
      `n - 1` elements of its tail does. */
  lemma NoneBeforeCons<T>(t: seq<T>, n: nat, p: T -> bool)
    requires 0 < n <= |t| && !p(t[0])
    requires forall j :: 0 <= j < n - 1 ==> !p(t[1..][j])
    ensures forall j :: 0 <= j < n ==> !p(t[j])
  {
    forall j | 0 < j < n ensures !p(t[j]) {
      assert t[j] == t[1..][j - 1];
    }
  }

  lemma {:induction false} FilterEmpty<T>(s: seq<T>, p: T -> bool)
    ensures Filter(s, p) == [] <==> forall k :: 0 <= k < |s| ==> !p(s[k])
  {
    if s != [] {
      FilterEmpty(s[..|s| - 1], p);
      assert forall k :: 0 <= k < |s| - 1 ==> s[..|s| - 1][k] == s[k];
    }
  }

  /** Cutting away elements the filter drops anyway leaves the filtered result alone. */
  lemma FilterMiddle<T>(c: seq<T>, i: nat, j: nat, p: T -> bool)
    requires i <= j <= |c|
    requires forall k :: 0 <= k < i ==> !p(c[k])
    requires forall k :: j <= k < |c| ==> !p(c[k])
    ensures Filter(c[i..j], p) == Filter(c, p)
  {
    FilterDropTail(c, j, p);
    assert c[..j][i..] == c[i..j];
    FilterDropHead(c[..j], i, p);
  }

  lemma {:induction false} FilterDropTail<T>(c: seq<T>, j: nat, p: T -> bool)
    requires j <= |c|
    requires forall k :: j <= k < |c| ==> !p(c[k])
    ensures Filter(c[..j], p) == Filter(c, p)
    decreases |c|
  {
    if j < |c| {
      var init := c[..|c| - 1];
      assert init[..j] == c[..j];
      FilterDropTail(init, j, p);
    } else {
      assert c[..j] == c;
    }
  }

  lemma FilterDropHead<T>(c: seq<T>, i: nat, p: T -> bool)
    requires i <= |c|
    requires forall k :: 0 <= k < i ==> !p(c[k])
    ensures Filter(c[i..], p) == Filter(c, p)
  {
    assert c == c[..i] + c[i..];
    FilterAppend(c[..i], c[i..], p);
    FilterEmpty(c[..i], p);
  }

  /** `a` is `b` with some elements left out and the rest in their order. */
  predicate IsSubsequence<T(==)>(a: seq<T>, b: seq<T>)
    decreases |b|
  {
    if a == [] then true
    else if b == [] then false
    else if a[|a| - 1] == b[|b| - 1] then IsSubsequence(a[..|a| - 1], b[..|b| - 1])
    else IsSubsequence(a, b[..|b| - 1])
  }

  lemma {:induction false} SubsequenceExtendRight<T>(a: seq<T>, b: seq<T>, x: T)
    requires IsSubsequence(a, b)
    ensures IsSubsequence(a, b + [x])
    decreases |b|, 1
  {
    assert (b + [x])[..|b|] == b;
    if a != [] && a[|a| - 1] == x {
      SubsequenceDropLast(a, b);
    }
  }

  lemma {:induction false} SubsequenceDropLast<T>(a: seq<T>, b: seq<T>)
    requires a != [] && IsSubsequence(a, b)
    ensures IsSubsequence(a[..|a| - 1], b)
    decreases |b|, 0
  {
    var b' := b[..|b| - 1];
    assert b' + [b[|b| - 1]] == b;
    if a[|a| - 1] == b[|b| - 1] {
      SubsequenceExtendRight(a[..|a| - 1], b', b[|b| - 1]);
    } else {
      SubsequenceDropLast(a, b');
      SubsequenceExtendRight(a[..|a| - 1], b', b[|b| - 1]);
    }
  }

  lemma SubsequenceExtend<T>(a: seq<T>, b: seq<T>, x: T)
    requires IsSubsequence(a, b)
    ensures IsSubsequence(a, b + [x]) && IsSubsequence(a + [x], b + [x])
  {
    SubsequenceExtendRight(a, b, x);
    assert (a + [x])[..|a|] == a;
    assert (b + [x])[..|b|] == b;
  }

  lemma {:induction false} SubsequenceMembers<T>(a: seq<T>, b: seq<T>)
    requires IsSubsequence(a, b)
    ensures |a| <= |b|
    ensures forall x :: x in a ==> x in b
    decreases |b|
  {
    if a != [] {
      assert a == a[..|a| - 1] + [a[|a| - 1]];
      assert b == b[..|b| - 1] + [b[|b| - 1]];
      if a[|a| - 1] == b[|b| - 1] {
        SubsequenceMembers(a[..|a| - 1], b[..|b| - 1]);
      } else {
        SubsequenceMembers(a, b[..|b| - 1]);
      }
    }
  }

  lemma {:induction false} SubsequenceRefl<T>(a: seq<T>)
    ensures IsSubsequence(a, a)
  {
    if a != [] {
      SubsequenceRefl(a[..|a| - 1]);
      SubsequenceExtend(a[..|a| - 1], a[..|a| - 1], a[|a| - 1]);
      assert a[..|a| - 1] + [a[|a| - 1]] == a;
    }
  }

  lemma {:induction false} SubsequencePrefix<T>(a: seq<T>, n: nat)
    requires n <= |a|
    ensures IsSubsequence(a[..n], a)
    decreases |a|
  {
    if n == |a| {
      assert a[..n] == a;
      SubsequenceRefl(a);
    } else {
      SubsequencePrefix(a[..|a| - 1], n);
      assert a[..|a| - 1][..n] == a[..n];
      SubsequenceExtend(a[..n], a[..|a| - 1], a[|a| - 1]);
      assert a[..|a| - 1] + [a[|a| - 1]] == a;
    }
  }

  lemma {:induction false} SubsequenceTrans<T>(a: seq<T>, b: seq<T>, c: seq<T>)
    requires IsSubsequence(a, b) && IsSubsequence(b, c)
    ensures IsSubsequence(a, c)
    decreases |c|
  {
    if a != [] && b != [] && c != [] {
      var a', b', c' := a[..|a| - 1], b[..|b| - 1], c[..|c| - 1];
      assert c' + [c[|c| - 1]] == c;
      if b[|b| - 1] == c[|c| - 1] {
        if a[|a| - 1] == b[|b| - 1] {
          SubsequenceTrans(a', b', c');
        } else {
          SubsequenceTrans(a, b', c');
          SubsequenceExtendRight(a, c', c[|c| - 1]);
        }
      } else {
        SubsequenceTrans(a, b, c');
        SubsequenceExtendRight(a, c', c[|c| - 1]);
      }
    }
  }

  lemma {:induction false} FilterIsSubsequence<T>(s: seq<T>, p: T -> bool)
    ensures IsSubsequence(Filter(s, p), s)
  {
    if s != [] {
      var init := s[..|s| - 1];
      FilterIsSubsequence(init, p);
      SubsequenceExtend(Filter(init, p), init, s[|s| - 1]);
      assert init + [s[|s| - 1]] == s;
      if !p(s[|s| - 1]) {
        assert Filter(s, p) == Filter(init, p);
      }
    }
  }

  /** A stricter condition keeps a subsequence of what a looser one keeps. */
  lemma {:induction false} FilterImplies<T>(s: seq<T>, p: T -> bool, q: T -> bool)
    requires forall x :: p(x) ==> q(x)
    ensures IsSubsequence(Filter(s, p), Filter(s, q))
  {
    if s != [] {
      var init, x := s[..|s| - 1], s[|s| - 1];
      FilterImplies(init, p, q);
      if p(x) {
        assert Filter(s, p) == Filter(init, p) + [x] && Filter(s, q) == Filter(init, q) + [x];
        SubsequenceExtend(Filter(init, p), Filter(init, q), x);
      } else if q(x) {
        assert Filter(s, p) == Filter(init, p) && Filter(s, q) == Filter(init, q) + [x];
        SubsequenceExtendRight(Filter(init, p), Filter(init, q), x);
      } else {
        assert Filter(s, p) == Filter(init, p) && Filter(s, q) == Filter(init, q);
      }
    }
  }

  /** The sequences `f` gives for the items of `s`, concatenated in order. */
  function FlatMap<A, B>(f: A -> seq<B>, s: seq<A>): (r: seq<B>)
    ensures s == [] ==> r == []
  {
    if s == [] then [] else FlatMap(f, s[..|s| - 1]) + f(s[|s| - 1])
  }

  /** Mapping a concatenation concatenates the results. */
  lemma {:induction false} FlatMapAppend<A, B>(f: A -> seq<B>, s: seq<A>, t: seq<A>)
    ensures FlatMap(f, s + t) == FlatMap(f, s) + FlatMap(f, t)
    decreases |t|
  {
    if t == [] {
      assert s + t == s;
    } else {
      var t', last := t[..|t| - 1], t[|t| - 1];
      assert (s + t)[..|s + t| - 1] == s + t';
      assert (s + t)[|s + t| - 1] == last;
      FlatMapAppend(f, s, t');
    }
  }

  /** An item of the result comes from the sequence of some item of `s`, and every item of
      those sequences is in the result. */
  lemma {:induction false} FlatMapMembers<A, B>(f: A -> seq<B>, s: seq<A>, y: B)
    ensures y in FlatMap(f, s) <==> exists i :: 0 <= i < |s| && y in f(s[i])
  {
    if s != [] {
      var s' := s[..|s| - 1];
      FlatMapMembers(f, s', y);
      assert forall i :: 0 <= i < |s'| ==> s'[i] == s[i];
      if y in f(s[|s| - 1]) {
        assert exists i :: 0 <= i < |s| && y in f(s[i]);
      }
    }
  }

  /** When every item gives at most one result, there are at most as many results as
      items. */
  lemma {:induction false} FlatMapAtMostOne<A, B>(f: A -> seq<B>, s: seq<A>)
    requires forall i :: 0 <= i < |s| ==> |f(s[i])| <= 1
    ensures |FlatMap(f, s)| <= |s|
  {
    if s != [] {
      FlatMapAtMostOne(f, s[..|s| - 1]);
    }
  }

  /** A property every item's results have holds of all results. */
  lemma {:induction false} FlatMapAll<A, B>(f: A -> seq<B>, s: seq<A>, p: B -> bool)
    requires forall i, k :: 0 <= i < |s| && 0 <= k < |f(s[i])| ==> p(f(s[i])[k])
    ensures forall k :: 0 <= k < |FlatMap(f, s)| ==> p(FlatMap(f, s)[k])
  {
    if s != [] {
      var init := s[..|s| - 1];
      FlatMapAll(f, init, p);
      var r := FlatMap(f, s);
      assert r == FlatMap(f, init) + f(s[|s| - 1]);
      forall k | 0 <= k < |r| ensures p(r[k]) {
        if k >= |FlatMap(f, init)| {
          assert r[k] == f(s[|s| - 1])[k - |FlatMap(f, init)|];
        }
      }
    }
  }

  /** The items of `s` paired with their positions, counted from `start`. */
  function Indexed<A>(s: seq<A>, start: nat): (r: seq<(nat, A)>)
    ensures |r| == |s|
    ensures forall k :: 0 <= k < |s| ==> r[k] == (start + k, s[k])
  {
    seq(|s|, k requires 0 <= k < |s| => (start + k, s[k]))
  }

  /** Pairing a concatenation with positions pairs each part from where it starts. */
  lemma IndexedAppend<A>(a: seq<A>, b: seq<A>, start: nat)
    ensures Indexed(a + b, start) == Indexed(a, start) + Indexed(b, start + |a|)
  {
    var l, r := Indexed(a + b, start), Indexed(a, start) + Indexed(b, start + |a|);
    assert |l| == |r|;
    forall k | 0 <= k < |l| ensures l[k] == r[k] {
      if k >= |a| {
        assert r[k] == Indexed(b, start + |a|)[k - |a|];
      }
    }
  }

  /** Mapping the positioned items of one more item appends that item's results. */
  lemma FlatMapIndexedStep<A, B>(f: ((nat, A)) -> seq<B>, s: seq<A>, i: nat)
    requires i < |s|
    ensures FlatMap(f, Indexed(s[..i + 1], 0)) == FlatMap(f, Indexed(s[..i], 0)) + f((i, s[i]))
  {
    var pairs := Indexed(s[..i + 1], 0);
    assert pairs[..|pairs| - 1] == Indexed(s[..i], 0);
    assert pairs[|pairs| - 1] == (i, s[i]);
  }

  /** Python's `xs[:n]` for a non-negative `n`. */
  function Take<T>(s: seq<T>, n: nat): (r: seq<T>)
    ensures |r| == if n < |s| then n else |s|
    ensures r == s[..|r|]
  {
    if n < |s| then s[..n] else s
  }

  /** Python's `xs[:n]` for any integer `n`: a negative `n` leaves out the last `-n` elements. */
  function Slice<T>(s: seq<T>, n: int): (r: seq<T>)
    ensures n >= 0 ==> r == Take(s, n)
    ensures n < 0 ==> |r| == (if |s| + n > 0 then |s| + n else 0) && r == s[..|r|]
  {
    if n >= 0 then Take(s, n) else if |s| + n > 0 then s[..|s| + n] else []
  }

  predicate Distinct<T(==)>(s: seq<T>) {
    forall i, j :: 0 <= i < j < |s| ==> s[i] != s[j]
  }
}
