/** The optional value used for lookups that can fail ("first match or null"). */
module Wrappers {
  datatype Option<+T> = None | Some(value: T) {
    /** The value, or `default` when there is none (JavaScript's `x ?? default`). */
    function GetOr(default: T): T {
      match this
      case Some(v) => v
      case None => default
    }
  }
}

/**
 * Sequence relations and list operations shared by the flattening, search and
 * selection engines: in-order containment, "push if not already included"
 * and "filter out every listed value".
 */
module Seqs {

  /** `a` occurs in `b` in order, not necessarily contiguously. */
  predicate Subseq<T(==)>(a: seq<T>, b: seq<T>)
    decreases |b|
  {
    if a == [] then true
    else if b == [] then false
    else (a[0] == b[0] && Subseq(a[1..], b[1..])) || Subseq(a, b[1..])
  }

  /** Appending `x` and then `y` appends `x + y`. */
  lemma AppendAssoc<T>(acc: seq<T>, x: seq<T>, y: seq<T>, before: seq<T>, after: seq<T>)
    requires before == acc + x && after == before + y
    ensures after == acc + (x + y)
  {
  }

  /** No value occurs twice. */
  predicate Distinct<T(==)>(s: seq<T>) {
    forall i, j :: 0 <= i < j < |s| ==> s[i] != s[j]
  }

  lemma {:induction false} SubseqRefl<T>(a: seq<T>)
    ensures Subseq(a, a)
    decreases |a|
  {
    if a != [] {
      SubseqRefl(a[1..]);
    }
  }

  lemma {:induction false} SubseqPrepend<T>(a: seq<T>, b: seq<T>, c: seq<T>)
    requires Subseq(a, b)
    ensures Subseq(a, c + b)
    decreases |c|
  {
    if c != [] {
      SubseqPrepend(a, b, c[1..]);
      var cb := c + b;
      assert cb != [] && cb[1..] == c[1..] + b;
      if a != [] {
        assert Subseq(a, cb[1..]);
        assert Subseq(a, cb);
      }
    } else {
      assert c + b == b;
    }
  }

  lemma {:induction false} SubseqMembers<T>(a: seq<T>, b: seq<T>)
    requires Subseq(a, b)
    ensures forall x :: x in a ==> x in b
    decreases |b|
  {
    if a != [] && b != [] {
      if a[0] == b[0] && Subseq(a[1..], b[1..]) {
        SubseqMembers(a[1..], b[1..]);
        assert forall x :: x in a ==> x == a[0] || x in a[1..];
      } else {
        SubseqMembers(a, b[1..]);
      }
    }
  }

  /** Concatenating in-order embeddings gives an in-order embedding. */
  lemma {:induction false} SubseqConcat<T>(a1: seq<T>, b1: seq<T>, a2: seq<T>, b2: seq<T>)
    requires Subseq(a1, b1) && Subseq(a2, b2)
    ensures Subseq(a1 + a2, b1 + b2)
    decreases |b1|
  {
    if a1 == [] {
      assert a1 + a2 == a2;
      SubseqPrepend(a2, b2, b1);
    } else {
      assert b1 != [];
      assert (b1 + b2)[1..] == b1[1..] + b2;
      if a1[0] == b1[0] && Subseq(a1[1..], b1[1..]) {
        SubseqConcat(a1[1..], b1[1..], a2, b2);
        assert (a1 + a2)[1..] == a1[1..] + a2;
      } else {
        SubseqConcat(a1, b1[1..], a2, b2);
      }
    }
  }

  /** A sequence occurs in any extension of itself. */
  lemma SubseqExtend<T>(a: seq<T>, b: seq<T>)
    ensures Subseq(a, a + b)
  {
    SubseqRefl(a);
    SubseqConcat(a, a, [], b);
    assert a + [] == a;
  }

  /** A slice inside the middle part of a concatenation. */
  lemma SliceOfMiddle<T>(a: seq<T>, b: seq<T>, d: seq<T>, i: int, j: int)
    requires 0 <= i <= j <= |b|
    ensures (a + b + d)[|a| + i .. |a| + j] == b[i..j]
  {
  }

  /** A slice inside the last part of a concatenation. */
  lemma SliceOfTail<T>(a: seq<T>, d: seq<T>, i: int, j: int)
    requires 0 <= i <= j <= |d|
    ensures (a + d)[|a| + i .. |a| + j] == d[i..j]
  {
  }

  /** An element of the last part of a concatenation. */
  lemma IndexAfter<T>(a: seq<T>, d: seq<T>, j: int)
    requires 0 <= j < |d|
    ensures (a + d)[|a| + j] == d[j]
  {
  }

  /** Every contiguous slice of `t` occurs in `t` in order. */
  lemma SliceIsSubseq<T>(t: seq<T>, i: nat, j: nat)
    requires i <= j <= |t|
    ensures Subseq(t[i..j], t)
  {
    var mid, tail := t[i..j], t[i..j] + t[j..];
    SubseqExtend(mid, t[j..]);
    SubseqPrepend(mid, tail, t[..i]);
    SliceSplit(t, i, j);
  }

  /** A sequence split at `i`, with the element at `i` heading the second part. */
  lemma SliceAt<T>(t: seq<T>, i: nat)
    requires i < |t|
    ensures t == t[..i] + t[i..] && t[i..][0] == t[i] && t[i..][1..] == t[i + 1..]
  {
  }

  lemma ConcatAssoc<T>(a: seq<T>, b: seq<T>, c: seq<T>)
    ensures a + (b + c) == a + b + c
  {
  }

  /** A sequence is its three slices put back together. */
  lemma SliceSplit<T>(t: seq<T>, i: nat, j: nat)
    requires i <= j <= |t|
    ensures t[..i] + (t[i..j] + t[j..]) == t
  {
    assert t[i..j] + t[j..] == t[i..];
  }


  /** Dropping the first query element keeps an embedding. */
  lemma {:induction false} SubseqDropHead<T>(a: seq<T>, b: seq<T>)
    requires a != [] && Subseq(a, b)
    ensures Subseq(a[1..], b)
    decreases |b|
  {
    assert b != [];
    if a[0] == b[0] && Subseq(a[1..], b[1..]) {
      SubseqPrepend(a[1..], b[1..], [b[0]]);
      assert [b[0]] + b[1..] == b;
    } else {
      SubseqDropHead(a, b[1..]);
      if a[1..] != [] {
        assert Subseq(a[1..], b[1..]);
      }
    }
  }

  /**
   * The greedy step: when `k` is the first position of `a[0]` in `b`, `a` embeds
   * in `b` exactly when the rest of `a` embeds in what follows position `k`.
   */
  lemma {:induction false} SubseqGreedyStep<T>(a: seq<T>, b: seq<T>, k: nat)
    requires a != [] && k < |b| && b[k] == a[0]
    requires forall j :: 0 <= j < k ==> b[j] != a[0]
    ensures Subseq(a, b) == Subseq(a[1..], b[k + 1..])
    decreases k
  {
    if k == 0 {
      if Subseq(a, b[1..]) {
        SubseqDropHead(a, b[1..]);
      }
    } else {
      SubseqGreedyStep(a, b[1..], k - 1);
      assert b[1..][k..] == b[k + 1..];
    }
  }

  /** When `a[0]` does not occur in `b`, `a` does not embed in `b`. */
  lemma {:induction false} SubseqMissingHead<T>(a: seq<T>, b: seq<T>)
    requires a != []
    requires forall j :: 0 <= j < |b| ==> b[j] != a[0]
    ensures !Subseq(a, b)
    decreases |b|
  {
    if b != [] {
      SubseqMissingHead(a, b[1..]);
    }
  }

  /** Applying a function elementwise. */
  function MapSeq<T, U>(f: T -> U, s: seq<T>): (r: seq<U>)
    ensures |r| == |s|
    ensures forall i :: 0 <= i < |s| ==> r[i] == f(s[i])
  {
    if s == [] then [] else [f(s[0])] + MapSeq(f, s[1..])
  }

  lemma {:induction false} MapSeqConcat<T, U>(f: T -> U, a: seq<T>, b: seq<T>)
    ensures MapSeq(f, a + b) == MapSeq(f, a) + MapSeq(f, b)
  {
  }

  /** An in-order embedding survives mapping both sides through the same function. */
  lemma {:induction false} SubseqMap<T, U>(f: T -> U, a: seq<T>, b: seq<T>)
    requires Subseq(a, b)
    ensures Subseq(MapSeq(f, a), MapSeq(f, b))
    decreases |b|
  {
    if a != [] {
      assert MapSeq(f, b)[1..] == MapSeq(f, b[1..]);
      if a[0] == b[0] && Subseq(a[1..], b[1..]) {
        SubseqMap(f, a[1..], b[1..]);
        assert MapSeq(f, a)[1..] == MapSeq(f, a[1..]);
      } else {
        SubseqMap(f, a, b[1..]);
      }
    }
  }

  /**
   * `acc` extended, in order, by every element of `vs` it does not already
   * hold: a loop of `if (!acc.includes(v)) acc.push(v)`.
   */
  function AddMissing<T(==)>(acc: seq<T>, vs: seq<T>): seq<T>
    decreases |vs|
  {
    if vs == [] then acc
    else AddMissing(if vs[0] in acc then acc else acc + [vs[0]], vs[1..])
  }

  lemma {:induction false} AddMissingConcat<T>(acc: seq<T>, a: seq<T>, b: seq<T>)
    ensures AddMissing(acc, a + b) == AddMissing(AddMissing(acc, a), b)
    decreases |a|
  {
    if a != [] {
      assert (a + b)[0] == a[0];
      assert (a + b)[1..] == a[1..] + b;
      AddMissingConcat(if a[0] in acc then acc else acc + [a[0]], a[1..], b);
    } else {
      assert a + b == b;
    }
  }

  /**
   * What AddMissing promises: the old entries stay first and in order, every
   * element of `vs` ends up present, nothing else is added, no value that
   * was already present is added again, and no value is appended twice.
   */
  lemma {:induction false} AddMissingSpec<T>(acc: seq<T>, vs: seq<T>)
    ensures |AddMissing(acc, vs)| >= |acc|
    ensures AddMissing(acc, vs)[..|acc|] == acc
    ensures forall v :: v in vs ==> v in AddMissing(acc, vs)
    ensures forall x :: x in AddMissing(acc, vs) ==> x in acc || x in vs
    ensures forall k :: |acc| <= k < |AddMissing(acc, vs)| ==> AddMissing(acc, vs)[k] !in acc
    ensures forall i, j :: |acc| <= i < j < |AddMissing(acc, vs)| ==> AddMissing(acc, vs)[i] != AddMissing(acc, vs)[j]
    ensures Distinct(acc) ==> Distinct(AddMissing(acc, vs))
    decreases |vs|
  {
    if vs != [] {
      var acc' := if vs[0] in acc then acc else acc + [vs[0]];
      AddMissingSpec(acc', vs[1..]);
      var r := AddMissing(acc, vs);
      assert r == AddMissing(acc', vs[1..]);
      assert r[..|acc'|] == acc';
      assert r[..|acc|] == acc' [..|acc|];
      assert vs[0] in acc';
      assert vs[0] in r by {
        assert forall i :: 0 <= i < |acc'| ==> r[i] == acc'[i];
      }
      assert forall v :: v in vs ==> v == vs[0] || v in vs[1..];
      forall k | |acc| <= k < |r|
        ensures r[k] !in acc
      {
        if k < |acc'| {
          assert r[k] == acc'[k] == vs[0];
        }
      }
      forall i, j | |acc| <= i < j < |r|
        ensures r[i] != r[j]
      {
        if i < |acc'| {
          assert r[i] == acc'[i] == vs[0] && vs[0] in acc';
        }
      }
      if Distinct(acc) {
        if acc' != acc {
          forall i, j | 0 <= i < j < |acc'| ensures acc'[i] != acc'[j] {
            if j == |acc| {
              assert acc'[i] == acc[i];
            }
          }
        }
      }
    }
  }

  /** `vs` with every element of `removed` filtered out, order kept. */
  function Without<T(==)>(vs: seq<T>, removed: seq<T>): seq<T>
  {
    if vs == [] then []
    else (if vs[0] in removed then [] else [vs[0]]) + Without(vs[1..], removed)
  }

  lemma {:induction false} WithoutMembers<T>(vs: seq<T>, removed: seq<T>)
    ensures forall x :: x in Without(vs, removed) <==> x in vs && x !in removed
  {
    if vs != [] {
      WithoutMembers(vs[1..], removed);
      assert forall x :: x in vs <==> x == vs[0] || x in vs[1..];
    }
  }

  /** One step of a filter's count: keeping or dropping the head adds its copy or not. */
  lemma FilterCountStep<T>(f: seq<T>, out: seq<T>, rest: seq<T>, keepHead: bool, keepY: bool, y: T)
    requires f != [] && out == (if keepHead then [f[0]] else []) + rest
    requires f[0] == y ==> keepHead == keepY
    requires multiset(rest)[y] == if keepY then multiset(f[1..])[y] else 0
    ensures multiset(out)[y] == if keepY then multiset(f)[y] else 0
  {
    assert f == [f[0]] + f[1..];
    assert multiset(f) == multiset([f[0]]) + multiset(f[1..]);
  }

  /** Filtering keeps every copy of a value it does not remove. */
  lemma {:induction false} WithoutMultiset<T>(vs: seq<T>, removed: seq<T>)
    ensures forall y :: multiset(Without(vs, removed))[y] == if y in removed then 0 else multiset(vs)[y]
  {
    if vs != [] {
      WithoutMultiset(vs[1..], removed);
      var head := if vs[0] in removed then [] else [vs[0]];
      assert Without(vs, removed) == head + Without(vs[1..], removed);
      assert vs == [vs[0]] + vs[1..];
      assert multiset(vs) == multiset([vs[0]]) + multiset(vs[1..]);
      assert multiset(Without(vs, removed)) == multiset(head) + multiset(Without(vs[1..], removed));
    }
  }

  lemma {:induction false} WithoutKeepsOrder<T>(vs: seq<T>, removed: seq<T>)
    ensures Subseq(Without(vs, removed), vs)
  {
    if vs != [] {
      WithoutKeepsOrder(vs[1..], removed);
      if vs[0] in removed {
        assert Without(vs, removed) == [] + Without(vs[1..], removed) == Without(vs[1..], removed);
        SubseqPrepend(Without(vs[1..], removed), vs[1..], [vs[0]]);
        assert [vs[0]] + vs[1..] == vs;
      } else {
        var w := Without(vs, removed);
        assert w[0] == vs[0] && w[1..] == Without(vs[1..], removed);
      }
    }
  }

  /** Filtering twice is filtering once by the two lists together. */
  lemma {:induction false} WithoutWithout<T>(vs: seq<T>, a: seq<T>, b: seq<T>)
    ensures Without(Without(vs, a), b) == Without(vs, a + b)
  {
    if vs != [] {
      WithoutWithout(vs[1..], a, b);
      assert vs[0] in a + b <==> vs[0] in a || vs[0] in b;
      if vs[0] in a {
        assert Without(vs, a) == [] + Without(vs[1..], a) == Without(vs[1..], a);
        assert Without(vs, a + b) == [] + Without(vs[1..], a + b);
      } else {
        var w := Without(vs, a);
        assert w == [vs[0]] + Without(vs[1..], a);
        assert w[0] == vs[0] && w[1..] == Without(vs[1..], a);
        assert Without(w, b) == (if vs[0] in b then [] else [vs[0]]) + Without(w[1..], b);
      }
    }
  }

  lemma {:induction false} WithoutConcat<T>(a: seq<T>, b: seq<T>, removed: seq<T>)
    ensures Without(a + b, removed) == Without(a, removed) + Without(b, removed)
  {
    if a == [] {
      assert a + b == b;
    } else {
      var ab := a + b;
      assert ab[0] == a[0] && ab[1..] == a[1..] + b;
      var head := if a[0] in removed then [] else [a[0]];
      assert Without(ab, removed) == head + Without(a[1..] + b, removed);
      WithoutConcat(a[1..], b, removed);
      assert Without(a, removed) == head + Without(a[1..], removed);
      ConcatAssoc(head, Without(a[1..], removed), Without(b, removed));
    }
  }

  /** Adding values and then filtering all of them out again undoes the adding. */
  lemma {:induction false} WithoutAddMissing<T>(acc: seq<T>, vs: seq<T>, removed: seq<T>)
    requires forall v :: v in vs ==> v in removed
    ensures Without(AddMissing(acc, vs), removed) == Without(acc, removed)
    decreases |vs|
  {
    if vs != [] {
      if vs[0] !in acc {
        WithoutConcat(acc, [vs[0]], removed);
        assert Without([vs[0]], removed) == [];
        assert Without(acc + [vs[0]], removed) == Without(acc, removed);
      }
      WithoutAddMissing(if vs[0] in acc then acc else acc + [vs[0]], vs[1..], removed);
    }
  }

  lemma {:induction false} WithoutDistinct<T>(vs: seq<T>, removed: seq<T>)
    requires Distinct(vs)
    ensures Distinct(Without(vs, removed))
  {
    if vs != [] {
      WithoutDistinct(vs[1..], removed);
      WithoutMembers(vs[1..], removed);
      var w := Without(vs, removed);
      if vs[0] !in removed {
        assert vs[0] !in vs[1..];
        assert w == [vs[0]] + Without(vs[1..], removed);
      }
    }
  }

  /** Filtering out values none of which occur changes nothing. */
  lemma {:induction false} WithoutNothing<T>(vs: seq<T>, removed: seq<T>)
    requires forall x :: x in vs ==> x !in removed
    ensures Without(vs, removed) == vs
  {
    if vs != [] {
      WithoutNothing(vs[1..], removed);
      assert [vs[0]] + vs[1..] == vs;
    }
  }

  /** A sequence is distinct exactly when it has as many elements as the set of its elements. */
  lemma {:induction false} DistinctCard<T>(s: seq<T>)
    ensures |set x | x in s| <= |s|
    ensures Distinct(s) <==> |set x | x in s| == |s|
  {
    if s != [] {
      DistinctCard(s[1..]);
      var rest := set x | x in s[1..];
      assert (set x | x in s) == rest + {s[0]};
      if s[0] in s[1..] {
        assert (set x | x in s) == rest;
        assert !Distinct(s) by {
          var j :| 0 <= j < |s[1..]| && s[1..][j] == s[0];
          assert s[0] == s[j + 1];
        }
      } else {
        assert Distinct(s) <==> Distinct(s[1..]) by {
          if Distinct(s[1..]) {
            forall i, j | 0 <= i < j < |s| ensures s[i] != s[j] {
              if i > 0 {
                assert s[i] == s[1..][i - 1] && s[j] == s[1..][j - 1];
              } else {
                assert s[j] in s[1..];
              }
            }
          }
          if Distinct(s) {
            forall i, j | 0 <= i < j < |s[1..]| ensures s[1..][i] != s[1..][j] {
              assert s[1..][i] == s[i + 1] && s[1..][j] == s[j + 1];
            }
          }
        }
      }
    }
  }

  /** In a distinct sequence every element occurs exactly once. */
  lemma {:induction false} DistinctMultiset<T>(s: seq<T>)
    requires Distinct(s)
    ensures forall x :: multiset(s)[x] == if x in s then 1 else 0
  {
    if s != [] {
      assert Distinct(s[1..]) by {
        forall i, j | 0 <= i < j < |s[1..]| ensures s[1..][i] != s[1..][j] {
          assert s[1..][i] == s[i + 1] && s[1..][j] == s[j + 1];
        }
      }
      DistinctMultiset(s[1..]);
      assert s == [s[0]] + s[1..];
      assert forall j :: 0 <= j < |s[1..]| ==> s[1..][j] == s[j + 1] != s[0];
      assert multiset(s) == multiset{s[0]} + multiset(s[1..]);
      assert forall x :: x in s <==> x == s[0] || x in s[1..];
    }
  }

  /**
   * A distinct sequence all of whose elements occur in a sequence just as
   * long is a permutation of it.
   */
  lemma CoveredPermutation<T>(a: seq<T>, b: seq<T>)
    requires Distinct(a) && |a| == |b| && forall x :: x in a ==> x in b
    ensures multiset(a) == multiset(b)
  {
    var sa := set x | x in a;
    var sb := set x | x in b;
    DistinctCard(a);
    DistinctCard(b);
    assert sa <= sb;
    assert |sa| == |a| && |sb| <= |b|;
    SubsetEqualCard(sa, sb);
    assert Distinct(b);
    DistinctMultiset(a);
    DistinctMultiset(b);
    assert forall x :: x in a <==> x in sa;
    assert forall x :: x in b <==> x in sb;
    assert forall x :: multiset(a)[x] == multiset(b)[x];
  }

  /** A subset at least as large as its superset is equal to it. */
  lemma SubsetEqualCard<T>(x: set<T>, y: set<T>)
    requires x <= y && |y| <= |x|
    ensures x == y
  {
    if x != y {
      var e :| e in y && e !in x;
      SubsetCard(x, y - {e});
    }
  }

  lemma {:induction false} SubsetCard<T>(x: set<T>, y: set<T>)
    requires x <= y
    ensures |x| <= |y|
    decreases x
  {
    if x != {} {
      var e :| e in x;
      SubsetCard(x - {e}, y - {e});
    }
  }
}
