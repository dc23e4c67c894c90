/** Generic sequence operations that mirror the JavaScript array methods the
    planner uses (filter, includes, a Set built from a mapped array), and the
    facts about them that the projections rely on. */
module Seqs {

  datatype Option<T> = None | Some(value: T)

  /** `xs.filter(p)`: the elements satisfying `p`, in their original order. */
  function Filter<T(!new)>(xs: seq<T>, p: T -> bool): (r: seq<T>)
    ensures |r| <= |xs|
  {
    if xs == [] then []
    else (if p(xs[0]) then [xs[0]] else []) + Filter(xs[1..], p)
  }

  /** An element is kept exactly when it occurs and satisfies `p`. */
  lemma {:induction false} FilterMembers<T(!new)>(xs: seq<T>, p: T -> bool)
    ensures forall x :: x in Filter(xs, p) <==> x in xs && p(x)
  {
    if xs != [] {
      FilterMembers(xs[1..], p);
      assert xs == [xs[0]] + xs[1..];
    }
  }

  /** Number of occurrences of `x` in `xs`. */
  function Count<T(==,!new)>(xs: seq<T>, x: T): (n: nat)
    ensures n <= |xs|
    ensures n == 0 <==> x !in xs
  {
    if xs == [] then 0
    else (if xs[0] == x then 1 else 0) + Count(xs[1..], x)
  }

  /** `ys` is obtained from `xs` by deleting elements (order of the rest kept). */
  predicate IsSubsequence<T(==,!new)>(ys: seq<T>, xs: seq<T>)
    decreases |xs|
  {
    if ys == [] then true
    else if xs == [] then false
    else if ys[0] == xs[0] then IsSubsequence(ys[1..], xs[1..])
    else IsSubsequence(ys, xs[1..])
  }

  /** No element occurs twice. */
  predicate Distinct<T(==,!new)>(xs: seq<T>)
  {
    forall i, j :: 0 <= i < j < |xs| ==> xs[i] != xs[j]
  }

  lemma {:induction false} FilterAppend<T(!new)>(a: seq<T>, b: seq<T>, p: T -> bool)
    ensures Filter(a + b, p) == Filter(a, p) + Filter(b, p)
  {
    if a == [] {
      assert a + b == b;
    } else {
      var head := if p(a[0]) then [a[0]] else [];
      assert (a + b)[0] == a[0];
      assert (a + b)[1..] == a[1..] + b;
      assert Filter(a + b, p) == head + Filter(a[1..] + b, p);
      FilterAppend(a[1..], b, p);
      assert Filter(a, p) == head + Filter(a[1..], p);
    }
  }

  /** Filtering an extended sequence filters the old part and tests the new element. */
  lemma FilterSnoc<T(!new)>(xs: seq<T>, x: T, p: T -> bool)
    ensures Filter(xs + [x], p) == Filter(xs, p) + (if p(x) then [x] else [])
  {
    FilterAppend(xs, [x], p);
  }

  lemma {:induction false} FilterIsSubsequence<T(!new)>(xs: seq<T>, p: T -> bool)
    ensures IsSubsequence(Filter(xs, p), xs)
  {
    if xs != [] {
      var rest := Filter(xs[1..], p);
      FilterIsSubsequence(xs[1..], p);
      if p(xs[0]) {
        assert ([xs[0]] + rest)[1..] == rest;
      } else {
        assert Filter(xs, p) == rest;
        SubsequenceOfTail(rest, xs);
      }
    }
  }

  lemma {:induction false} SubsequenceOfTail<T(!new)>(ys: seq<T>, xs: seq<T>)
    requires xs != [] && IsSubsequence(ys, xs[1..])
    ensures IsSubsequence(ys, xs)
    decreases |xs|, |ys|
  {
    if ys != [] && ys[0] == xs[0] {
      SubsequenceDropHead(ys, xs[1..]);
    }
  }

  lemma {:induction false} SubsequenceDropHead<T(!new)>(ys: seq<T>, xs: seq<T>)
    requires ys != [] && IsSubsequence(ys, xs)
    ensures IsSubsequence(ys[1..], xs)
    decreases |xs|, |ys|
  {
    if ys[0] == xs[0] {
      if ys[1..] != [] {
        SubsequenceOfTail(ys[1..], xs);
      }
    } else {
      SubsequenceDropHead(ys, xs[1..]);
      if ys[1..] != [] {
        SubsequenceOfTail(ys[1..], xs);
      }
    }
  }

  lemma {:induction false} CountFilter<T(!new)>(xs: seq<T>, p: T -> bool, x: T)
    ensures Count(Filter(xs, p), x) == if p(x) then Count(xs, x) else 0
  {
    if xs != [] {
      CountFilter(xs[1..], p, x);
      CountAppend((if p(xs[0]) then [xs[0]] else []), Filter(xs[1..], p), x);
    }
  }

  lemma {:induction false} CountAppend<T(!new)>(a: seq<T>, b: seq<T>, x: T)
    ensures Count(a + b, x) == Count(a, x) + Count(b, x)
  {
    if a == [] {
      assert a + b == b;
    } else {
      assert (a + b)[1..] == a[1..] + b;
      CountAppend(a[1..], b, x);
    }
  }

  /** Filtering with a predicate no element satisfies gives the empty sequence. */
  lemma {:induction false} FilterNone<T(!new)>(xs: seq<T>, p: T -> bool)
    requires forall i :: 0 <= i < |xs| ==> !p(xs[i])
    ensures Filter(xs, p) == []
  {
    if xs != [] {
      FilterNone(xs[1..], p);
    }
  }

  /** Filtering with a predicate every element satisfies changes nothing. */
  lemma {:induction false} FilterAll<T(!new)>(xs: seq<T>, p: T -> bool)
    requires forall i :: 0 <= i < |xs| ==> p(xs[i])
    ensures Filter(xs, p) == xs
  {
    if xs != [] {
      FilterAll(xs[1..], p);
      assert xs == [xs[0]] + xs[1..];
    }
  }

  /** Splitting by a predicate and its negation keeps every element exactly once. */
  lemma {:induction false} FilterSplitMultiset<T(!new)>(xs: seq<T>, p: T -> bool, q: T -> bool)
    requires forall x :: q(x) == !p(x)
    ensures multiset(Filter(xs, p)) + multiset(Filter(xs, q)) == multiset(xs)
  {
    if xs != [] {
      var x, rest := xs[0], xs[1..];
      var fp, fq := Filter(rest, p), Filter(rest, q);
      FilterSplitMultiset(rest, p, q);
      assert multiset(fp) + multiset(fq) == multiset(rest);
      assert xs == [x] + rest;
      assert multiset(xs) == multiset([x]) + multiset(rest);
      if p(x) {
        assert Filter(xs, p) == [x] + fp;
        assert multiset(Filter(xs, p)) == multiset([x]) + multiset(fp);
        assert Filter(xs, q) == fq;
      } else {
        assert Filter(xs, p) == fp;
        assert Filter(xs, q) == [x] + fq;
        assert multiset(Filter(xs, q)) == multiset([x]) + multiset(fq);
      }
    }
  }

  /** Two filters can be applied in either order. */
  lemma {:induction false} FilterCommute<T(!new)>(xs: seq<T>, p: T -> bool, q: T -> bool)
    ensures Filter(Filter(xs, p), q) == Filter(Filter(xs, q), p)
  {
    if xs != [] {
      FilterCommute(xs[1..], p, q);
      var x := xs[0];
      FilterAppend(if p(x) then [x] else [], Filter(xs[1..], p), q);
      FilterAppend(if q(x) then [x] else [], Filter(xs[1..], q), p);
    }
  }

  // ---------------------------------------------------------------------
  // Grouping by a key, as `[...new Set(xs.map(key))]` and
  // `xs.filter(x => key(x) === k)` do.

  /** The predicate "has key `k`". */
  function HasKey<T(!new), K(==,!new)>(key: T -> K, k: K): T -> bool
  {
    x => key(x) == k
  }

  /** The elements whose key is `k`. */
  function Group<T(!new), K(==,!new)>(xs: seq<T>, key: T -> K, k: K): seq<T>
  {
    Filter(xs, HasKey(key, k))
  }

  /** The distinct keys of `xs`, each at the position where a JavaScript `Set`
      first receives it (insertion order). */
  function Keys<T(!new), K(==,!new)>(xs: seq<T>, key: T -> K): (ks: seq<K>)
    ensures Distinct(ks)
    ensures forall k :: k in ks <==> exists i :: 0 <= i < |xs| && key(xs[i]) == k
  {
    if xs == [] then []
    else
      var front := xs[..|xs| - 1];
      var ks := Keys(front, key);
      var k := key(xs[|xs| - 1]);
      assert forall i :: 0 <= i < |front| ==> front[i] == xs[i];
      if k in ks then ks else ks + [k]
  }

  /** Keys come in first-occurrence order: wherever the later key of two
      occurs, the earlier key has already occurred before it. */
  lemma {:induction false} KeysInFirstOccurrenceOrder<T(!new), K(!new)>(xs: seq<T>, key: T -> K)
    ensures forall a, b, q :: 0 <= a < b < |Keys(xs, key)| && 0 <= q < |xs| && key(xs[q]) == Keys(xs, key)[b] ==>
              exists p :: 0 <= p < q && key(xs[p]) == Keys(xs, key)[a]
  {
    if xs != [] {
      var front := xs[..|xs| - 1];
      var ks := Keys(front, key);
      var last := |xs| - 1;
      KeysInFirstOccurrenceOrder(front, key);
      assert forall i :: 0 <= i < |front| ==> front[i] == xs[i];
      forall a, b, q | 0 <= a < b < |Keys(xs, key)| && 0 <= q < |xs| && key(xs[q]) == Keys(xs, key)[b]
        ensures exists p :: 0 <= p < q && key(xs[p]) == Keys(xs, key)[a]
      {
        var ka := Keys(xs, key)[a];
        assert ka == ks[a];
        assert ka in ks;
        var pa :| 0 <= pa < |front| && key(front[pa]) == ka;
        if b < |ks| {
          var kb := ks[b];
          if q < last {
            assert key(front[q]) == kb;
            var p :| 0 <= p < q && key(front[p]) == ka;
            assert key(xs[p]) == ka;
          } else {
            // q is the last position; any earlier occurrence of ka will do
            assert key(xs[pa]) == ka && pa < q;
          }
        } else {
          // b is the freshly appended key, which does not occur in front
          assert key(xs[last]) !in ks;
          assert q == last;
          assert key(xs[pa]) == ka && pa < q;
        }
      }
    }
  }

  /** Sum of the group sizes over a list of keys. */
  function GroupSizes<T(!new), K(==,!new)>(ks: seq<K>, xs: seq<T>, key: T -> K): nat
  {
    if ks == [] then 0 else |Group(xs, key, ks[0])| + GroupSizes(ks[1..], xs, key)
  }

  lemma {:induction false} GroupSizesSnocKey<T(!new), K(!new)>(ks: seq<K>, k: K, xs: seq<T>, key: T -> K)
    ensures GroupSizes(ks + [k], xs, key) == GroupSizes(ks, xs, key) + |Group(xs, key, k)|
  {
    if ks != [] {
      assert (ks + [k])[1..] == ks[1..] + [k];
      GroupSizesSnocKey(ks[1..], k, xs, key);
    }
  }

  lemma {:induction false} GroupSizesSnocElement<T(!new), K(!new)>(ks: seq<K>, xs: seq<T>, x: T, key: T -> K)
    requires Distinct(ks)
    ensures GroupSizes(ks, xs + [x], key) == GroupSizes(ks, xs, key) + (if key(x) in ks then 1 else 0)
  {
    if ks != [] {
      FilterSnoc(xs, x, HasKey(key, ks[0]));
      assert Distinct(ks[1..]) by {
        forall i, j | 0 <= i < j < |ks[1..]| ensures ks[1..][i] != ks[1..][j] {
          assert ks[1..][i] == ks[i + 1] && ks[1..][j] == ks[j + 1];
        }
      }
      GroupSizesSnocElement(ks[1..], xs, x, key);
      if key(x) == ks[0] {
        assert key(x) !in ks[1..] by {
          forall j | 0 <= j < |ks[1..]| ensures ks[1..][j] != key(x) {
            assert ks[1..][j] == ks[j + 1];
          }
        }
      }
      assert key(x) in ks <==> key(x) == ks[0] || key(x) in ks[1..] by {
        assert ks == [ks[0]] + ks[1..];
      }
    }
  }

  /** The groups over all keys together hold every element exactly once: their
      sizes add up to the length of the sequence. */
  lemma {:induction false} GroupSizesTotal<T(!new), K(!new)>(xs: seq<T>, key: T -> K)
    ensures GroupSizes(Keys(xs, key), xs, key) == |xs|
  {
    if xs != [] {
      var front := xs[..|xs| - 1];
      var x := xs[|xs| - 1];
      var ks := Keys(front, key);
      assert xs == front + [x];
      GroupSizesTotal(front, key);
      GroupSizesSnocElement(ks, front, x, key);
      if key(x) !in ks {
        GroupSizesSnocKey(ks, key(x), xs, key);
        FilterSnoc(front, x, HasKey(key, key(x)));
        assert forall i :: 0 <= i < |front| ==> !HasKey(key, key(x))(front[i]);
        FilterNone(front, HasKey(key, key(x)));
      }
    }
  }
}
