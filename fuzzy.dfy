/**
 * The search matcher of the tree-select prompt: names and queries are
 * compared after removing whitespace and lower-casing, and a query matches a
 * name when its characters occur in the name in order.
 */
module Fuzzy {
  import opened Seqs

  /**
   * The characters JavaScript's `\s` and `String.prototype.trim` treat as
   * whitespace: tab, line feed, vertical tab, form feed, carriage return,
   * space, no-break space, the Unicode space separators, the line and
   * paragraph separators and the byte-order mark.
   */
  predicate IsJsSpace(c: char) {
    var n := c as int;
    (9 <= n <= 13) || n == 32 || n == 0xA0 || n == 0x1680 ||
    (0x2000 <= n <= 0x200A) || n == 0x2028 || n == 0x2029 || n == 0x202F ||
    n == 0x205F || n == 0x3000 || n == 0xFEFF
  }

  /** Lower-casing of one character; only the ASCII letters are mapped. */
  function ToLower(c: char): (r: char)
    ensures 'A' <= c <= 'Z' ==> r as int == c as int + 32
    ensures !('A' <= c <= 'Z') ==> r == c
  {
    if 'A' <= c <= 'Z' then (c as int + 32) as char else c
  }

  /** `s.replace(/\s+/g, '').toLowerCase()`. */
  function Squash(s: string): string {
    if s == [] then []
    else (if IsJsSpace(s[0]) then [] else [ToLower(s[0])]) + Squash(s[1..])
  }

  /** A squashed string holds no whitespace and no upper-case ASCII letter. */
  lemma {:induction false} SquashClean(s: string)
    ensures forall k :: 0 <= k < |Squash(s)| ==> !IsJsSpace(Squash(s)[k]) && !('A' <= Squash(s)[k] <= 'Z')
  {
    if s != [] {
      SquashClean(s[1..]);
      var head := if IsJsSpace(s[0]) then [] else [ToLower(s[0])];
      assert Squash(s) == head + Squash(s[1..]);
      forall k | 0 <= k < |Squash(s)|
        ensures !IsJsSpace(Squash(s)[k]) && !('A' <= Squash(s)[k] <= 'Z')
      {
        if k >= |head| {
          assert Squash(s)[k] == Squash(s[1..])[k - |head|];
        }
      }
    }
  }

  /** Squashing is idempotent: a string already squashed is left as it is. */
  lemma {:induction false} SquashIdempotent(s: string)
    ensures Squash(Squash(s)) == Squash(s)
  {
    if s != [] {
      SquashIdempotent(s[1..]);
      if IsJsSpace(s[0]) {
        assert Squash(s) == [] + Squash(s[1..]) == Squash(s[1..]);
      } else {
        var c := ToLower(s[0]);
        assert !IsJsSpace(c) && ToLower(c) == c;
        var sq := Squash(s);
        assert sq == [c] + Squash(s[1..]);
        assert sq[0] == c && sq[1..] == Squash(s[1..]);
        assert Squash(sq) == [c] + Squash(sq[1..]);
      }
    }
  }

  /**
   * `s.indexOf(c, from)`: the first position at or after `from` holding `c`,
   * or -1 when there is none.
   */
  function IndexOf(s: string, c: char, from: nat): (r: int)
    ensures r == -1 || from <= r < |s|
    ensures r == -1 ==> forall j :: from <= j < |s| ==> s[j] != c
    ensures r != -1 ==> s[r] == c && forall j :: from <= j < r ==> s[j] != c
    decreases |s| - from
  {
    if from >= |s| then -1
    else if s[from] == c then from
    else IndexOf(s, c, from + 1)
  }

  /**
   * The matching relation: the (already squashed) query occurs in order in
   * the squashed name. The empty query matches every name.
   */
  predicate FuzzyMatch(name: string, query: string) {
    Subseq(query, Squash(name))
  }

  /** The empty query matches everything. */
  lemma EmptyQueryMatches(name: string)
    ensures FuzzyMatch(name, [])
  {
  }

  /**
   * Any contiguous piece of the squashed name matches it, and so does any
   * query whose squashed form is such a piece.
   */
  lemma SubstringMatches(name: string, i: nat, j: nat)
    requires i <= j <= |Squash(name)|
    ensures FuzzyMatch(name, Squash(name)[i..j])
  {
    SliceIsSubseq(Squash(name), i, j);
  }

  /**
   * One iteration of the scan below, restated on the remaining suffixes:
   * with a hit the rest of the query must embed after it, and without one
   * it cannot embed at all.
   */
  lemma GreedyStep(query: string, target: string, qi: nat, ti: nat, found: int)
    requires qi < |query| && ti <= |target| && found == IndexOf(target, query[qi], ti)
    ensures found == -1 ==> !Subseq(query[qi..], target[ti..])
    ensures found != -1 ==>
      Subseq(query[qi..], target[ti..]) == Subseq(query[qi + 1..], target[found + 1..])
  {
    if found == -1 {
      GreedyMiss(query[qi..], target, ti);
    } else {
      GreedyHit(query[qi..], target, ti, found);
      assert query[qi..][1..] == query[qi + 1..];
    }
  }

  /** No occurrence of the next query character: the rest of the query cannot embed. */
  lemma GreedyMiss(a: string, target: string, ti: nat)
    requires a != [] && ti <= |target|
    requires forall j :: ti <= j < |target| ==> target[j] != a[0]
    ensures !Subseq(a, target[ti..])
  {
    var b := target[ti..];
    forall j | 0 <= j < |b|
      ensures b[j] != a[0]
    {
      assert b[j] == target[ti + j];
    }
    SubseqMissingHead(a, b);
  }

  /** The first occurrence at `found`: the rest of the query must embed after it. */
  lemma GreedyHit(a: string, target: string, ti: nat, found: nat)
    requires a != [] && ti <= found < |target| && target[found] == a[0]
    requires forall j :: ti <= j < found ==> target[j] != a[0]
    ensures Subseq(a, target[ti..]) == Subseq(a[1..], target[found + 1..])
  {
    var b := target[ti..];
    var k := found - ti;
    assert b[k] == target[found];
    forall j | 0 <= j < k
      ensures b[j] != a[0]
    {
      assert b[j] == target[ti + j];
    }
    SubseqGreedyStep(a, b, k);
    assert b[k + 1..] == target[found + 1..];
  }

  /** The whole query consumed: what remains embeds in whatever remains of the name. */
  lemma GreedyDone(query: string, target: string, qi: nat, ti: nat)
    requires qi == |query| && ti <= |target|
    ensures Subseq(query[qi..], target[ti..])
  {
    assert query[qi..] == [];
  }

  /**
   * `isFuzzyMatch(name, queryNoSpacesLower)`: the greedy scan that looks each
   * query character up with `indexOf` from just after the previous hit.
   */
  method IsFuzzyMatch(name: string, query: string) returns (b: bool)
    ensures b == FuzzyMatch(name, query)
  {
    var target := Squash(name);
    if query == [] {
      return true;
    }
    var ti := 0;
    var qi := 0;
    assert query[qi..] == query && target[ti..] == target;
    while qi < |query|
      invariant 0 <= qi <= |query| && 0 <= ti <= |target|
      invariant Subseq(query, target) == Subseq(query[qi..], target[ti..])
    {
      var found := IndexOf(target, query[qi], ti);
      GreedyStep(query, target, qi, ti, found);
      if found == -1 {
        return false;
      }
      ti := found + 1;
      qi := qi + 1;
    }
    GreedyDone(query, target, qi, ti);
    b := true;
  }
}
