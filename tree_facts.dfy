/**
 * What the normaliser, the two flattenings, the lookups and the expansion
 * transforms of module Tree promise, proved by structural induction.
 */
module TreeFacts {
  import opened Wrappers
  import opened Seqs
  import opened Tree

  // ---------------------------------------------------------------- normaliser

  /** Normalising keeps every value, in pre-order. */
  lemma {:induction false} NormalizeKeepsValues<V>(raw: seq<RawItem<V>>, show: V -> string)
    ensures AllValues(NormalizeTree(raw, show)) == RawValues(raw)
  {
    if raw != [] {
      NormalizeKeepsValues(raw[1..], show);
      var r := NormalizeTree(raw, show);
      assert r[1..] == NormalizeTree(raw[1..], show);
      match raw[0]
      case Plain(v) =>
      case Item(v, _, _) =>
      case Folder(v, _, _, cs) =>
        NormalizeKeepsValues(cs, show);
    }
  }

  /**
   * A raw value becomes a closed leaf carrying it; a record keeps its value,
   * becomes a directory exactly when it has a children list (normalised in
   * turn), and a missing open flag becomes `false`.
   */
  lemma NormalizeDefaults<V>(raw: RawItem<V>, show: V -> string)
    ensures var n := NormalizeTree([raw], show)[0];
      n.value == (if raw.Plain? then raw.raw else raw.value) &&
      n.Dir? == raw.Folder? &&
      (raw.Folder? ==> n.children == NormalizeTree(raw.children, show)) &&
      n.open == (if raw.Plain? then false else raw.open.GetOr(false)) &&
      n.name == (if raw.Plain? then show(raw.raw) else NameOr(raw.name, raw.value, show))
  {
  }

  /**
   * After normalisation every name is final, so a flattening's
   * `name || String(value)` is the node's own name.
   */
  lemma {:induction false} NormalizedNamesSettled<V>(raw: seq<RawItem<V>>, show: V -> string)
    ensures NamesSettled(NormalizeTree(raw, show), show)
  {
    if raw != [] {
      NormalizedNamesSettled(raw[1..], show);
      var r := NormalizeTree(raw, show);
      assert r[1..] == NormalizeTree(raw[1..], show);
      if raw[0].Folder? {
        NormalizedNamesSettled(raw[0].children, show);
      }
    }
  }

  /** Writing a settled canonical tree back as records and normalising it gives it back. */
  lemma {:induction false} NormalizeExportRoundTrip<V>(items: seq<Node<V>>, show: V -> string)
    requires NamesSettled(items, show)
    ensures NormalizeTree(Export(items), show) == items
  {
    if items != [] {
      NormalizeExportRoundTrip(items[1..], show);
      var e := Export(items);
      assert e[1..] == Export(items[1..]);
      if items[0].Dir? {
        NormalizeExportRoundTrip(items[0].children, show);
      }
    }
  }

  /** Normalising is idempotent on its own output. */
  lemma NormalizeIdempotent<V>(raw: seq<RawItem<V>>, show: V -> string)
    ensures NormalizeTree(Export(NormalizeTree(raw, show)), show) == NormalizeTree(raw, show)
  {
    NormalizedNamesSettled(raw, show);
    NormalizeExportRoundTrip(NormalizeTree(raw, show), show);
  }

  // ------------------------------------------------------------- flattenings

  /** The expansion-aware flattening is an in-order selection of the full one. */
  lemma {:induction false} FlattenOpenSubseq<V>(items: seq<Node<V>>, level: nat)
    ensures Subseq(FlattenOpen(items, level), FlattenAll(items, level))
  {
    if items != [] {
      var n := items[0];
      var head := [Flat(n, level)];
      var openKids := if n.Dir? && n.open then FlattenOpen(n.children, level + 1) else [];
      var allKids := if n.Dir? then FlattenAll(n.children, level + 1) else [];
      if n.Dir? && n.open {
        FlattenOpenSubseq(n.children, level + 1);
      }
      FlattenOpenSubseq(items[1..], level);
      SubseqRefl(head);
      SubseqConcat(head, head, openKids, allKids);
      SubseqConcat(head + openKids, head + allKids, FlattenOpen(items[1..], level), FlattenAll(items[1..], level));
    }
  }

  /** The full flattening lists exactly `getAllValues`. */
  lemma {:induction false} FlattenAllValues<V>(items: seq<Node<V>>, level: nat)
    ensures MapSeq(ValueOf, FlattenAll(items, level)) == AllValues(items)
  {
    if items != [] {
      var n := items[0];
      var kids := if n.Dir? then FlattenAll(n.children, level + 1) else [];
      if n.Dir? {
        FlattenAllValues(n.children, level + 1);
      }
      FlattenAllValues(items[1..], level);
      MapSeqConcat(ValueOf, [Flat(n, level)], kids);
      MapSeqConcat(ValueOf, [Flat(n, level)] + kids, FlattenAll(items[1..], level));
    }
  }

  /** The values shown without a search are a subsequence of all values. */
  lemma OpenValuesSubseq<V>(items: seq<Node<V>>)
    ensures Subseq(MapSeq(ValueOf, FlattenOpen(items, 0)), AllValues(items))
  {
    FlattenOpenSubseq(items, 0);
    SubseqMap(ValueOf, FlattenOpen(items, 0), FlattenAll(items, 0));
    FlattenAllValues(items, 0);
  }

  /** When every directory is open, the two flattenings coincide. */
  lemma {:induction false} FlattenExpanded<V>(items: seq<Node<V>>, level: nat)
    requires AllDirsExpanded(items)
    ensures FlattenOpen(items, level) == FlattenAll(items, level)
  {
    if items != [] {
      if items[0].Dir? {
        FlattenExpanded(items[0].children, level + 1);
      }
      FlattenExpanded(items[1..], level);
    }
  }

  /** Every step one level deeper comes right after an open directory. */
  ghost predicate DeeperOnlyUnderOpenDir<V>(f: seq<FlatItem<V>>) {
    forall k :: 0 <= k < |f| - 1 ==>
      f[k + 1].level == f[k].level + 1 ==> f[k].isDirectory && f[k].isOpen
  }

  /** Every step one level deeper comes right after a directory. */
  ghost predicate DeeperOnlyUnderDir<V>(f: seq<FlatItem<V>>) {
    forall k :: 0 <= k < |f| - 1 ==>
      f[k + 1].level == f[k].level + 1 ==> f[k].isDirectory
  }

  /** A row followed by a subtree one level down and then its siblings keeps the level shape. */
  lemma PreorderLevelsCons<V>(h: FlatItem<V>, c: seq<FlatItem<V>>, r: seq<FlatItem<V>>, level: nat)
    requires h.level == level && PreorderLevels(c, level + 1) && PreorderLevels(r, level)
    ensures PreorderLevels([h] + c + r, level)
  {
    var f := [h] + c + r;
    forall k | 0 <= k < |f|
      ensures f[k].level >= level
    {
      if 0 < k <= |c| {
        assert f[k] == c[k - 1];
      } else if k > |c| {
        assert f[k] == r[k - 1 - |c|];
      }
    }
    forall k | 0 <= k < |f| - 1
      ensures f[k + 1].level <= f[k].level + 1
    {
      if k == 0 {
        if |c| > 0 {
          assert f[1] == c[0];
        } else {
          assert f[1] == r[0];
        }
      } else if k < |c| {
        assert f[k] == c[k - 1] && f[k + 1] == c[k];
      } else if k == |c| {
        assert f[k] == c[k - 1] && f[k + 1] == r[0];
      } else {
        assert f[k] == r[k - 1 - |c|] && f[k + 1] == r[k - |c|];
      }
    }
  }

  /** The same join keeps "deeper only right after an open directory". */
  lemma DeeperOpenCons<V>(h: FlatItem<V>, c: seq<FlatItem<V>>, r: seq<FlatItem<V>>, level: nat)
    requires h.level == level && PreorderLevels(c, level + 1) && PreorderLevels(r, level)
    requires DeeperOnlyUnderOpenDir(c) && DeeperOnlyUnderOpenDir(r)
    requires c != [] ==> h.isDirectory && h.isOpen
    ensures DeeperOnlyUnderOpenDir([h] + c + r)
  {
    var f := [h] + c + r;
    forall k | 0 <= k < |f| - 1
      ensures f[k + 1].level == f[k].level + 1 ==> f[k].isDirectory && f[k].isOpen
    {
      if k == 0 {
        if |c| == 0 {
          assert f[1] == r[0];
        }
      } else if k < |c| {
        assert f[k] == c[k - 1] && f[k + 1] == c[k];
      } else if k == |c| {
        assert f[k] == c[k - 1] && f[k + 1] == r[0];
      } else {
        assert f[k] == r[k - 1 - |c|] && f[k + 1] == r[k - |c|];
      }
    }
  }

  /** The same join keeps "deeper only right after a directory". */
  lemma DeeperDirCons<V>(h: FlatItem<V>, c: seq<FlatItem<V>>, r: seq<FlatItem<V>>, level: nat)
    requires h.level == level && PreorderLevels(c, level + 1) && PreorderLevels(r, level)
    requires DeeperOnlyUnderDir(c) && DeeperOnlyUnderDir(r)
    requires c != [] ==> h.isDirectory
    ensures DeeperOnlyUnderDir([h] + c + r)
  {
    var f := [h] + c + r;
    forall k | 0 <= k < |f| - 1
      ensures f[k + 1].level == f[k].level + 1 ==> f[k].isDirectory
    {
      if k == 0 {
        if |c| == 0 {
          assert f[1] == r[0];
        }
      } else if k < |c| {
        assert f[k] == c[k - 1] && f[k + 1] == c[k];
      } else if k == |c| {
        assert f[k] == c[k - 1] && f[k + 1] == r[0];
      } else {
        assert f[k] == r[k - 1 - |c|] && f[k + 1] == r[k - |c|];
      }
    }
  }

  /**
   * The pre-order level shape of the expansion-aware flattening: it starts
   * at the given level, never goes above it, steps down at most one level at
   * a time and only right after an open directory (RowsFollowDepth pins each
   * level to its node's depth).
   */
  lemma {:induction false} FlattenOpenLevels<V>(items: seq<Node<V>>, level: nat)
    ensures PreorderLevels(FlattenOpen(items, level), level)
    ensures DeeperOnlyUnderOpenDir(FlattenOpen(items, level))
  {
    if items != [] {
      var n := items[0];
      var c := if n.Dir? && n.open then FlattenOpen(n.children, level + 1) else [];
      if n.Dir? && n.open {
        FlattenOpenLevels(n.children, level + 1);
      }
      FlattenOpenLevels(items[1..], level);
      PreorderLevelsCons(Flat(n, level), c, FlattenOpen(items[1..], level), level);
      DeeperOpenCons(Flat(n, level), c, FlattenOpen(items[1..], level), level);
    }
  }

  /** The same shape for the full flattening, which descends into every directory. */
  lemma {:induction false} FlattenAllLevels<V>(items: seq<Node<V>>, level: nat)
    ensures PreorderLevels(FlattenAll(items, level), level)
    ensures DeeperOnlyUnderDir(FlattenAll(items, level))
  {
    if items != [] {
      var n := items[0];
      var c := if n.Dir? then FlattenAll(n.children, level + 1) else [];
      if n.Dir? {
        FlattenAllLevels(n.children, level + 1);
      }
      FlattenAllLevels(items[1..], level);
      PreorderLevelsCons(Flat(n, level), c, FlattenAll(items[1..], level), level);
      DeeperDirCons(Flat(n, level), c, FlattenAll(items[1..], level), level);
    }
  }

  /**
   * Row k of a flattening shows the k-th listed node, and the rows right
   * after a directory the flattening descends into are its children's own
   * flattening one level deeper: a row's level is its node's depth.
   */
  ghost predicate DepthBlocks<V>(f: seq<FlatItem<V>>, ns: seq<Node<V>>, all: bool) {
    RowsShow(f, ns) && ChildBlocks(f, ns, all)
  }

  /** Row k shows node k. */
  ghost predicate RowsShow<V>(f: seq<FlatItem<V>>, ns: seq<Node<V>>) {
    |f| == |ns| && forall k :: 0 <= k < |f| ==> f[k] == Flat(ns[k], f[k].level)
  }

  /** The rows after a descended directory's row are its children's rows, one level deeper. */
  ghost predicate ChildBlocks<V>(f: seq<FlatItem<V>>, ns: seq<Node<V>>, all: bool)
    requires |f| == |ns|
  {
    forall k :: 0 <= k < |f| && Descends(ns[k], all) ==> ChildBlockAt(f, k, ns[k].children, all)
  }

  /** The rows after row k are the flattening of `children` one level below row k. */
  ghost predicate ChildBlockAt<V>(f: seq<FlatItem<V>>, k: nat, children: seq<Node<V>>, all: bool)
    requires k < |f|
  {
    k + 1 + |Nodes(children, all)| <= |f| &&
    f[k + 1 .. k + 1 + |Nodes(children, all)|] == Rows(children, f[k].level + 1, all)
  }

  lemma ChildBlockMiddle<V>(a: seq<FlatItem<V>>, b: seq<FlatItem<V>>, d: seq<FlatItem<V>>,
                            k: nat, children: seq<Node<V>>, all: bool)
    requires k < |b| && ChildBlockAt(b, k, children, all)
    ensures ChildBlockAt(a + b + d, |a| + k, children, all)
  {
    assert (a + b + d)[|a| + k] == b[k];
    SliceOfMiddle(a, b, d, k + 1, k + 1 + |Nodes(children, all)|);
  }

  lemma ChildBlockTail<V>(a: seq<FlatItem<V>>, d: seq<FlatItem<V>>, k: nat, children: seq<Node<V>>, all: bool)
    requires k < |d| && ChildBlockAt(d, k, children, all)
    ensures ChildBlockAt(a + d, |a| + k, children, all)
  {
    assert (a + d)[|a| + k] == d[k];
    SliceOfTail(a, d, k + 1, k + 1 + |Nodes(children, all)|);
  }

  /** Row k shows node k also after a node's row and its children's rows go before its siblings'. */
  lemma RowsShowCons<V>(h: FlatItem<V>, n: Node<V>, c: seq<FlatItem<V>>, r: seq<FlatItem<V>>,
                        nc: seq<Node<V>>, nr: seq<Node<V>>)
    requires h == Flat(n, h.level) && RowsShow(c, nc) && RowsShow(r, nr)
    ensures RowsShow([h] + c + r, [n] + nc + nr)
  {
    var f := [h] + c + r;
    var ns := [n] + nc + nr;
    forall k | 0 <= k < |f|
      ensures f[k] == Flat(ns[k], f[k].level)
    {
      if k == 0 {
        assert f[0] == h && ns[0] == n;
      } else if k <= |c| {
        assert f[k] == c[k - 1] && ns[k] == nc[k - 1];
      } else {
        assert f[k] == r[k - 1 - |c|] && ns[k] == nr[k - 1 - |nc|];
      }
    }
  }

  lemma ChildBlockHead<V>(h: FlatItem<V>, c: seq<FlatItem<V>>, r: seq<FlatItem<V>>, children: seq<Node<V>>, all: bool)
    requires c == Rows(children, h.level + 1, all) && |c| == |Nodes(children, all)|
    ensures ChildBlockAt([h] + c + r, 0, children, all)
  {
    SliceOfMiddle([h], c, r, 0, |c|);
    assert c[0..|c|] == c;
  }

  /** The same join keeps every descended directory's block of child rows. */
  lemma ChildBlocksCons<V>(n: Node<V>, c: seq<FlatItem<V>>, r: seq<FlatItem<V>>,
                           nc: seq<Node<V>>, nr: seq<Node<V>>, level: nat, all: bool)
    requires Descends(n, all) ==> c == Rows(n.children, level + 1, all) && nc == Nodes(n.children, all)
    requires !Descends(n, all) ==> c == [] && nc == []
    requires |c| == |nc| && |r| == |nr|
    requires ChildBlocks(c, nc, all) && ChildBlocks(r, nr, all)
    ensures ChildBlocks([Flat(n, level)] + c + r, [n] + nc + nr, all)
  {
    var f := [Flat(n, level)] + c + r;
    var ns := [n] + nc + nr;
    forall k | 0 <= k < |f| && Descends(ns[k], all)
      ensures ChildBlockAt(f, k, ns[k].children, all)
    {
      ChildBlockAtCons(n, c, r, nc, nr, level, all, k);
    }
  }

  lemma ChildBlockAtCons<V>(n: Node<V>, c: seq<FlatItem<V>>, r: seq<FlatItem<V>>,
                            nc: seq<Node<V>>, nr: seq<Node<V>>, level: nat, all: bool, k: nat)
    requires Descends(n, all) ==> c == Rows(n.children, level + 1, all) && nc == Nodes(n.children, all)
    requires |c| == |nc| && |r| == |nr|
    requires ChildBlocks(c, nc, all) && ChildBlocks(r, nr, all)
    requires k < 1 + |c| + |r| && Descends(([n] + nc + nr)[k], all)
    ensures ChildBlockAt([Flat(n, level)] + c + r, k, ([n] + nc + nr)[k].children, all)
  {
    var h := Flat(n, level);
    var ns := [n] + nc + nr;
    if k == 0 {
      assert ns[0] == n;
      ChildBlockHead(h, c, r, n.children, all);
    } else if k <= |c| {
      assert ns[k] == nc[k - 1];
      InnerBlock(h, c, r, nc, all, k - 1);
    } else {
      assert ns[k] == nr[k - 1 - |c|];
      SiblingBlock([h] + c, r, nr, all, k - 1 - |c|);
    }
  }

  lemma InnerBlock<V>(h: FlatItem<V>, c: seq<FlatItem<V>>, r: seq<FlatItem<V>>, nc: seq<Node<V>>, all: bool, j: nat)
    requires |c| == |nc| && ChildBlocks(c, nc, all) && j < |c| && Descends(nc[j], all)
    ensures ChildBlockAt([h] + c + r, 1 + j, nc[j].children, all)
  {
    assert ChildBlockAt(c, j, nc[j].children, all);
    ChildBlockMiddle([h], c, r, j, nc[j].children, all);
  }

  lemma SiblingBlock<V>(p: seq<FlatItem<V>>, r: seq<FlatItem<V>>, nr: seq<Node<V>>, all: bool, j: nat)
    requires |r| == |nr| && ChildBlocks(r, nr, all) && j < |r| && Descends(nr[j], all)
    ensures ChildBlockAt(p + r, |p| + j, nr[j].children, all)
  {
    assert ChildBlockAt(r, j, nr[j].children, all);
    ChildBlockTail(p, r, j, nr[j].children, all);
  }

  /** One flattening step, for either flattening. */
  lemma RowsCons<V>(items: seq<Node<V>>, level: nat, all: bool)
    requires items != []
    ensures Rows(items, level, all) ==
      [Flat(items[0], level)]
      + (if Descends(items[0], all) then Rows(items[0].children, level + 1, all) else [])
      + Rows(items[1..], level, all)
  {
  }

  lemma NodesCons<V>(items: seq<Node<V>>, all: bool)
    requires items != []
    ensures Nodes(items, all) ==
      [items[0]] + (if Descends(items[0], all) then Nodes(items[0].children, all) else []) + Nodes(items[1..], all)
  {
  }

  /** The row of the i-th top-level node comes right after the rows of the nodes before it. */
  lemma TopRowsCons<V>(items: seq<Node<V>>, level: nat, all: bool, i: nat)
    requires 0 < i < |items|
    requires |Nodes(items[1..][..i - 1], all)| < |Rows(items[1..], level, all)|
    requires Rows(items[1..], level, all)[|Nodes(items[1..][..i - 1], all)|] == Flat(items[i], level)
    requires Descends(items[0], all) ==> |Rows(items[0].children, level + 1, all)| == |Nodes(items[0].children, all)|
    ensures |Nodes(items[..i], all)| < |Rows(items, level, all)|
    ensures Rows(items, level, all)[|Nodes(items[..i], all)|] == Flat(items[i], level)
  {
    var n := items[0];
    var front := items[..i];
    assert front[0] == n && front[1..] == items[1..][..i - 1];
    NodesCons(front, all);
    RowsCons(items, level, all);
    var c := if Descends(n, all) then Rows(n.children, level + 1, all) else [];
    var r := Rows(items[1..], level, all);
    var j := |Nodes(items[1..][..i - 1], all)|;
    IndexAfter([Flat(n, level)] + c, r, j);
  }

  /**
   * `level` is the depth. Row k of either flattening shows the k-th node it
   * lists, in pre-order; the rows right after a directory it descends into
   * are exactly that directory's children flattened one level deeper; and
   * each top-level node's row, after the rows of the nodes before it, is at
   * the starting level.
   */
  lemma {:induction false} RowsFollowDepth<V>(items: seq<Node<V>>, level: nat, all: bool)
    ensures DepthBlocks(Rows(items, level, all), Nodes(items, all), all)
    ensures forall i :: 0 <= i < |items| ==>
      |Nodes(items[..i], all)| < |Rows(items, level, all)| &&
      Rows(items, level, all)[|Nodes(items[..i], all)|] == Flat(items[i], level)
  {
    if items != [] {
      var n := items[0];
      var c := if Descends(n, all) then Rows(n.children, level + 1, all) else [];
      var nc := if Descends(n, all) then Nodes(n.children, all) else [];
      if Descends(n, all) {
        RowsFollowDepth(n.children, level + 1, all);
      }
      RowsFollowDepth(items[1..], level, all);
      RowsCons(items, level, all);
      NodesCons(items, all);
      RowsShowCons(Flat(n, level), n, c, Rows(items[1..], level, all), nc, Nodes(items[1..], all));
      ChildBlocksCons(n, c, Rows(items[1..], level, all), nc, Nodes(items[1..], all), level, all);
      forall i | 0 <= i < |items|
        ensures |Nodes(items[..i], all)| < |Rows(items, level, all)| &&
          Rows(items, level, all)[|Nodes(items[..i], all)|] == Flat(items[i], level)
      {
        if i == 0 {
          assert items[..0] == [];
        } else {
          TopRowsCons(items, level, all, i);
        }
      }
    }
  }

  // ----------------------------------------------------------------- lookups

  lemma {:induction false} FirstNodeConcat<V>(a: seq<Node<V>>, b: seq<Node<V>>, target: V)
    ensures FirstNode(a + b, target) == if FirstNode(a, target).Some? then FirstNode(a, target) else FirstNode(b, target)
  {
    if a == [] {
      assert a + b == b;
    } else {
      assert (a + b)[0] == a[0];
      assert (a + b)[1..] == a[1..] + b;
      FirstNodeConcat(a[1..], b, target);
    }
  }

  /** `findItem` returns the first node in pre-order that carries the value. */
  lemma {:induction false} FindItemIsFirstInPreorder<V>(items: seq<Node<V>>, target: V)
    ensures FindItem(items, target) == FirstNode(Nodes(items, true), target)
  {
    if items != [] {
      var n := items[0];
      var kids := if n.Dir? then Nodes(n.children, true) else [];
      if n.Dir? {
        FindItemIsFirstInPreorder(n.children, target);
      }
      FindItemIsFirstInPreorder(items[1..], target);
      FirstNodeConcat([n] + kids, Nodes(items[1..], true), target);
      FirstNodeConcat([n], kids, target);
      assert Nodes(items, true) == [n] + kids + Nodes(items[1..], true);
    }
  }

  /** A lookup succeeds exactly for the values of the tree, and finds a node carrying the value. */
  lemma {:induction false} FindItemFound<V>(items: seq<Node<V>>, target: V)
    ensures FindItem(items, target).Some? <==> target in AllValues(items)
    ensures FindItem(items, target).Some? ==> FindItem(items, target).value.value == target
  {
    if items != [] {
      if items[0].Dir? {
        FindItemFound(items[0].children, target);
      }
      FindItemFound(items[1..], target);
    }
  }

  lemma {:induction false} FirstDirIndexConcat<V>(a: seq<FlatItem<V>>, b: seq<FlatItem<V>>, target: V)
    ensures FirstDirIndex(a + b, target) ==
      if FirstDirIndex(a, target) != -1 then FirstDirIndex(a, target)
      else if FirstDirIndex(b, target) == -1 then -1
      else |a| + FirstDirIndex(b, target)
  {
    if a == [] {
      assert a + b == b;
    } else {
      assert (a + b)[0] == a[0];
      assert (a + b)[1..] == a[1..] + b;
      FirstDirIndexConcat(a[1..], b, target);
    }
  }

  /** A directory row with the value is there to be found. */
  lemma {:induction false} FirstDirIndexFound<V>(f: seq<FlatItem<V>>, x: FlatItem<V>)
    requires x in f && x.isDirectory
    ensures FirstDirIndex(f, x.value) != -1
  {
    if !(f[0].isDirectory && f[0].value == x.value) {
      assert x != f[0];
      assert x in f[1..] by {
        var k :| 0 <= k < |f| && f[k] == x;
        assert f[1..][k - 1] == x;
      }
      FirstDirIndexFound(f[1..], x);
    }
  }

  lemma FlipInMiddle<V>(a: seq<FlatItem<V>>, b: seq<FlatItem<V>>, c: seq<FlatItem<V>>, k: int)
    requires -1 <= k < |b|
    ensures FlipAt(a + b + c, if k == -1 then -1 else |a| + k) == a + FlipAt(b, k) + c
  {
    if k != -1 {
      var f := a + b + c;
      assert f[|a| + k] == b[k];
      assert f[|a| + k := f[|a| + k].(isOpen := !f[|a| + k].isOpen)] == a + b[k := b[k].(isOpen := !b[k].isOpen)] + c;
    }
  }

  /** The statement of ToggleDirSpec, for reuse by its case lemmas. */
  ghost predicate ToggleDirMeetsSpec<V>(items: seq<Node<V>>, target: V, level: nat) {
    var f := FlattenAll(items, level);
    var r := ToggleDir(items, target);
    r.1 == (FirstDirIndex(f, target) != -1) &&
    FlattenAll(r.0, level) == FlipAt(f, FirstDirIndex(f, target)) &&
    (!r.1 ==> r.0 == items)
  }

  /**
   * `findAndToggle` flips exactly one row of the full flattening: the first
   * directory row carrying the value; it reports whether there was one, and
   * leaves the tree untouched when there was not.
   */
  lemma {:induction false} ToggleDirSpec<V>(items: seq<Node<V>>, target: V, level: nat)
    ensures ToggleDir(items, target).1 == (FirstDirIndex(FlattenAll(items, level), target) != -1)
    ensures FlattenAll(ToggleDir(items, target).0, level)
         == FlipAt(FlattenAll(items, level), FirstDirIndex(FlattenAll(items, level), target))
    ensures !ToggleDir(items, target).1 ==> ToggleDir(items, target).0 == items
  {
    if items != [] {
      var n := items[0];
      if n.Dir? {
        ToggleDirSpec(n.children, target, level + 1);
      }
      if n.Dir? && n.value == target {
        ToggleDirHere(items, target, level);
      } else if n.Dir? && ToggleDir(n.children, target).1 {
        ToggleDirInChildren(items, target, level);
      } else {
        ToggleDirSpec(items[1..], target, level);
        ToggleDirLater(items, target, level);
      }
      assert ToggleDirMeetsSpec(items, target, level);
    }
  }

  /** The full flattening of a sequence headed by a directory. */
  lemma FlattenAllDirCons<V>(n: Node<V>, rest: seq<Node<V>>, level: nat)
    requires n.Dir?
    ensures FlattenAll([n] + rest, level)
         == [Flat(n, level)] + FlattenAll(n.children, level + 1) + FlattenAll(rest, level)
  {
    assert ([n] + rest)[1..] == rest;
  }

  lemma ToggleDirAtHead<V>(items: seq<Node<V>>, target: V)
    requires items != [] && items[0].Dir? && items[0].value == target
    ensures ToggleDir(items, target) == ([items[0].(open := !items[0].open)] + items[1..], true)
  {
  }

  lemma FirstDirIndexAtHead<V>(items: seq<Node<V>>, target: V, level: nat)
    requires items != [] && items[0].Dir? && items[0].value == target
    ensures FirstDirIndex(FlattenAll(items, level), target) == 0
  {
  }

  lemma ToggleDirHere<V>(items: seq<Node<V>>, target: V, level: nat)
    requires items != [] && items[0].Dir? && items[0].value == target
    ensures ToggleDirMeetsSpec(items, target, level)
  {
    var n := items[0];
    var n' := n.(open := !n.open);
    var c := FlattenAll(n.children, level + 1);
    var r := FlattenAll(items[1..], level);
    var f := FlattenAll(items, level);
    FlattenAllDirCons(n, items[1..], level);
    assert [n] + items[1..] == items;
    FlattenAllDirCons(n', items[1..], level);
    ToggleDirAtHead(items, target);
    FirstDirIndexAtHead(items, target, level);
    assert f == [Flat(n, level)] + c + r;
    assert FlipAt(f, 0) == [Flat(n', level)] + c + r;
  }

  lemma ToggleDirInChildren<V>(items: seq<Node<V>>, target: V, level: nat)
    requires items != [] && items[0].Dir? && items[0].value != target
    requires ToggleDir(items[0].children, target).1
    requires ToggleDirMeetsSpec(items[0].children, target, level + 1)
    ensures ToggleDirMeetsSpec(items, target, level)
  {
    var n := items[0];
    var h := Flat(n, level);
    var c := FlattenAll(n.children, level + 1);
    var r := FlattenAll(items[1..], level);
    var f := [h] + c + r;
    assert f == FlattenAll(items, level);
    assert f[1..] == c + r;
    FirstDirIndexConcat(c, r, target);
    var n' := n.(children := ToggleDir(n.children, target).0);
    var kc := FirstDirIndex(c, target);
    assert FirstDirIndex(f, target) == 1 + kc;
    assert ToggleDir(items, target).0 == [n'] + items[1..];
    assert ([n'] + items[1..])[1..] == items[1..];
    assert Flat(n', level) == h;
    assert FlattenAll([n'] + items[1..], level) == [h] + FlipAt(c, kc) + r;
    FlipInMiddle([h], c, r, kc);
  }

  /** The full flattening of a sequence with a given head. */
  lemma FlattenAllCons<V>(n: Node<V>, rest: seq<Node<V>>, level: nat)
    ensures FlattenAll([n] + rest, level)
         == [Flat(n, level)] + (if n.Dir? then FlattenAll(n.children, level + 1) else []) + FlattenAll(rest, level)
  {
    assert ([n] + rest)[1..] == rest;
  }

  lemma ToggleDirPastHead<V>(items: seq<Node<V>>, target: V)
    requires items != []
    requires !(items[0].Dir? && items[0].value == target)
    requires items[0].Dir? ==> !ToggleDir(items[0].children, target).1
    ensures ToggleDir(items, target)
         == ([items[0]] + ToggleDir(items[1..], target).0, ToggleDir(items[1..], target).1)
  {
  }

  /** The full flattening unfolded once at its head. */
  lemma FlattenAllHead<V>(items: seq<Node<V>>, level: nat)
    requires items != []
    ensures FlattenAll(items, level)
         == [Flat(items[0], level)] + (if items[0].Dir? then FlattenAll(items[0].children, level + 1) else [])
            + FlattenAll(items[1..], level)
  {
  }

  /** The first matching directory row when the head node's subtree holds none. */
  lemma ToggleDirLaterRows<V>(items: seq<Node<V>>, target: V, level: nat)
    requires items != []
    requires !(items[0].Dir? && items[0].value == target)
    requires items[0].Dir? ==> FirstDirIndex(FlattenAll(items[0].children, level + 1), target) == -1
    ensures var c := if items[0].Dir? then FlattenAll(items[0].children, level + 1) else [];
            var kr := FirstDirIndex(FlattenAll(items[1..], level), target);
            FirstDirIndex(FlattenAll(items, level), target) == (if kr == -1 then -1 else 1 + |c| + kr)
  {
    var h := Flat(items[0], level);
    var c := if items[0].Dir? then FlattenAll(items[0].children, level + 1) else [];
    var r := FlattenAll(items[1..], level);
    FlattenAllHead(items, level);
    assert FirstDirIndex([h], target) == -1 by {
      assert [h][1..] == [];
    }
    FirstDirIndexConcat([h], c, target);
    FirstDirIndexConcat([h] + c, r, target);
  }

  /** Flipping a row past the head node's subtree, stated on a given new tail `rest`. */
  lemma ToggleDirLaterFlip<V>(items: seq<Node<V>>, rest: seq<Node<V>>, target: V, level: nat)
    requires items != []
    requires !(items[0].Dir? && items[0].value == target)
    requires items[0].Dir? ==> FirstDirIndex(FlattenAll(items[0].children, level + 1), target) == -1
    requires FlattenAll(rest, level)
          == FlipAt(FlattenAll(items[1..], level), FirstDirIndex(FlattenAll(items[1..], level), target))
    ensures FlattenAll([items[0]] + rest, level)
         == FlipAt(FlattenAll(items, level), FirstDirIndex(FlattenAll(items, level), target))
  {
    var n := items[0];
    var p := [Flat(n, level)] + (if n.Dir? then FlattenAll(n.children, level + 1) else []);
    var r := FlattenAll(items[1..], level);
    var kr := FirstDirIndex(r, target);
    FlattenAllHead(items, level);
    ToggleDirLaterRows(items, target, level);
    FlattenAllCons(n, rest, level);
    FlipJoin(FlattenAll(items, level), FlattenAll([n] + rest, level), p, r, FlattenAll(rest, level),
             kr, FirstDirIndex(FlattenAll(items, level), target));
  }

  /** `FlipAfterPrefix`, stated on names for the sequences involved. */
  lemma FlipJoin<V>(whole: seq<FlatItem<V>>, joined: seq<FlatItem<V>>, p: seq<FlatItem<V>>, r: seq<FlatItem<V>>,
                    r': seq<FlatItem<V>>, k: int, kWhole: int)
    requires -1 <= k < |r| && whole == p + r && joined == p + r' && r' == FlipAt(r, k)
    requires kWhole == if k == -1 then -1 else |p| + k
    ensures joined == FlipAt(whole, kWhole)
  {
    FlipAfterPrefix(p, r, k);
  }

  /** Flipping a row of the tail of `p + r`. */
  lemma FlipAfterPrefix<V>(p: seq<FlatItem<V>>, r: seq<FlatItem<V>>, k: int)
    requires -1 <= k < |r|
    ensures FlipAt(p + r, if k == -1 then -1 else |p| + k) == p + FlipAt(r, k)
  {
    FlipInMiddle(p, r, [], k);
    assert p + r + [] == p + r;
    assert p + FlipAt(r, k) + [] == p + FlipAt(r, k);
  }


  lemma ToggleDirLater<V>(items: seq<Node<V>>, target: V, level: nat)
    requires items != []
    requires !(items[0].Dir? && items[0].value == target)
    requires items[0].Dir? ==> !ToggleDir(items[0].children, target).1
    requires items[0].Dir? ==> FirstDirIndex(FlattenAll(items[0].children, level + 1), target) == -1
    requires ToggleDirMeetsSpec(items[1..], target, level)
    ensures ToggleDirMeetsSpec(items, target, level)
  {
    var rest := ToggleDir(items[1..], target);
    ToggleDirLaterRows(items, target, level);
    ToggleDirPastHead(items, target);
    ToggleDirLaterFlip(items, rest.0, target, level);
    if !rest.1 {
      assert [items[0]] + items[1..] == items;
    }
  }

  // ------------------------------------------------------- expand / collapse

  lemma {:induction false} SetDirRowsConcat<V>(a: seq<FlatItem<V>>, c: seq<FlatItem<V>>, b: bool)
    ensures SetDirRows(a + c, b) == SetDirRows(a, b) + SetDirRows(c, b)
  {
    if a == [] {
      assert a + c == c;
    } else {
      assert (a + c)[0] == a[0];
      assert (a + c)[1..] == a[1..] + c;
      SetDirRowsConcat(a[1..], c, b);
    }
  }

  /** `expandAll`/`collapseAll` set the open flag of every directory row and change nothing else. */
  lemma {:induction false} SetOpenAllFlat<V>(items: seq<Node<V>>, b: bool, level: nat)
    ensures FlattenAll(SetOpenAll(items, b), level) == SetDirRows(FlattenAll(items, level), b)
  {
    if items != [] {
      var n := items[0];
      var c := if n.Dir? then FlattenAll(n.children, level + 1) else [];
      var r := FlattenAll(items[1..], level);
      var n' := if n.Dir? then n.(open := b, children := SetOpenAll(n.children, b)) else n;
      if n.Dir? {
        SetOpenAllFlat(n.children, b, level + 1);
      }
      SetOpenAllFlat(items[1..], b, level);
      assert SetOpenAll(items, b) == [n'] + SetOpenAll(items[1..], b);
      assert SetOpenAll(items, b)[1..] == SetOpenAll(items[1..], b);
      assert SetDirRows([Flat(n, level)], b) == [Flat(n', level)];
      SetDirRowsConcat([Flat(n, level)], c, b);
      SetDirRowsConcat([Flat(n, level)] + c, r, b);
    }
  }

  /** Every directory row of a flattening is open. */
  ghost predicate DirRowsOpen<V>(f: seq<FlatItem<V>>) {
    forall k :: 0 <= k < |f| ==> f[k].isDirectory ==> f[k].isOpen
  }

  /** `areAllDirectoriesExpanded` holds exactly when every directory row of the full flattening is open. */
  lemma {:induction false} AllDirsExpandedFlat<V>(items: seq<Node<V>>, level: nat)
    ensures AllDirsExpanded(items) <==> DirRowsOpen(FlattenAll(items, level))
  {
    if items != [] {
      var n := items[0];
      var c := if n.Dir? then FlattenAll(n.children, level + 1) else [];
      FlattenAllHead(items, level);
      if n.Dir? {
        AllDirsExpandedFlat(n.children, level + 1);
      }
      AllDirsExpandedFlat(items[1..], level);
      DirRowsOpenCons(Flat(n, level), c, FlattenAll(items[1..], level));
    }
  }

  /** The directory rows of a row, a subtree and its siblings are open when each part's are. */
  lemma DirRowsOpenCons<V>(h: FlatItem<V>, c: seq<FlatItem<V>>, r: seq<FlatItem<V>>)
    ensures DirRowsOpen([h] + c + r) <==> (h.isDirectory ==> h.isOpen) && DirRowsOpen(c) && DirRowsOpen(r)
  {
    var f := [h] + c + r;
    if DirRowsOpen(f) {
      forall k | 0 <= k < |c| ensures c[k].isDirectory ==> c[k].isOpen {
        assert c[k] == f[1 + k];
      }
      forall k | 0 <= k < |r| ensures r[k].isDirectory ==> r[k].isOpen {
        assert r[k] == f[1 + |c| + k];
      }
      assert h == f[0];
    }
    if (h.isDirectory ==> h.isOpen) && DirRowsOpen(c) && DirRowsOpen(r) {
      forall k | 0 <= k < |f| ensures f[k].isDirectory ==> f[k].isOpen {
        if k == 0 {
        } else if k <= |c| {
          assert f[k] == c[k - 1];
        } else {
          assert f[k] == r[k - 1 - |c|];
        }
      }
    }
  }


  /** After `expandAll`, `areAllDirectoriesExpanded` holds. */
  lemma {:induction false} ExpandAllExpands<V>(items: seq<Node<V>>)
    ensures AllDirsExpanded(SetOpenAll(items, true))
  {
    if items != [] {
      if items[0].Dir? {
        ExpandAllExpands(items[0].children);
      }
      ExpandAllExpands(items[1..]);
      assert SetOpenAll(items, true)[1..] == SetOpenAll(items[1..], true);
    }
  }

  /** After `collapseAll`, every directory is closed. */
  lemma {:induction false} CollapseAllCollapses<V>(items: seq<Node<V>>)
    ensures AllDirsCollapsed(SetOpenAll(items, false))
  {
    if items != [] {
      if items[0].Dir? {
        CollapseAllCollapses(items[0].children);
      }
      CollapseAllCollapses(items[1..]);
      assert SetOpenAll(items, false)[1..] == SetOpenAll(items[1..], false);
    }
  }

  /** Only the last of two bulk expand/collapse operations matters. */
  lemma {:induction false} SetOpenAllTwice<V>(items: seq<Node<V>>, a: bool, b: bool)
    ensures SetOpenAll(SetOpenAll(items, a), b) == SetOpenAll(items, b)
  {
    if items != [] {
      if items[0].Dir? {
        SetOpenAllTwice(items[0].children, a, b);
      }
      SetOpenAllTwice(items[1..], a, b);
      assert SetOpenAll(items, a)[1..] == SetOpenAll(items[1..], a);
    }
  }

  /** Collapsing a fully collapsed tree, or expanding a fully expanded one, changes nothing. */
  lemma {:induction false} SetOpenAllUnchanged<V>(items: seq<Node<V>>, b: bool)
    requires if b then AllDirsExpanded(items) else AllDirsCollapsed(items)
    ensures SetOpenAll(items, b) == items
  {
    if items != [] {
      if items[0].Dir? {
        SetOpenAllUnchanged(items[0].children, b);
      }
      SetOpenAllUnchanged(items[1..], b);
    }
  }

  /**
   * `toggleExpandAll` collapses everything when every directory is open and
   * otherwise expands everything.
   */
  lemma ToggleExpandAllResult<V>(items: seq<Node<V>>)
    ensures AllDirsExpanded(items) ==> AllDirsCollapsed(ToggleExpandAllTree(items))
    ensures !AllDirsExpanded(items) ==> AllDirsExpanded(ToggleExpandAllTree(items))
  {
    ExpandAllExpands(items);
    CollapseAllCollapses(items);
  }

  /** On a fully collapsed tree, two `toggleExpandAll`s give back the original tree. */
  lemma ToggleExpandAllTwice<V>(items: seq<Node<V>>)
    requires AllDirsCollapsed(items)
    ensures ToggleExpandAllTree(ToggleExpandAllTree(items)) == items
  {
    SetOpenAllUnchanged(items, false);
    if !AllDirsExpanded(items) {
      ExpandAllExpands(items);
      SetOpenAllTwice(items, true, false);
    }
  }

  // ----------------------------------------------------------------- skeleton

  lemma {:induction false} SkeletonRefl<V>(x: seq<Node<V>>)
    ensures SameSkeleton(x, x)
  {
    if x != [] {
      if x[0].Dir? {
        SkeletonRefl(x[0].children);
      }
      SkeletonRefl(x[1..]);
    }
  }

  /** Toggling a directory changes open flags only. */
  lemma {:induction false} ToggleDirSkeleton<V>(items: seq<Node<V>>, target: V)
    ensures SameSkeleton(items, ToggleDir(items, target).0)
  {
    if items != [] {
      var n := items[0];
      SkeletonRefl(items[1..]);
      if n.Dir? {
        ToggleDirSkeleton(n.children, target);
        SkeletonRefl(n.children);
      }
      if !(n.Dir? && n.value == target) && !(n.Dir? && ToggleDir(n.children, target).1) {
        ToggleDirSkeleton(items[1..], target);
        var rest := ToggleDir(items[1..], target).0;
        assert ([n] + rest)[1..] == rest;
      }
    }
  }

  /** Expanding or collapsing everything changes open flags only. */
  lemma {:induction false} SetOpenAllSkeleton<V>(items: seq<Node<V>>, b: bool)
    ensures SameSkeleton(items, SetOpenAll(items, b))
  {
    if items != [] {
      if items[0].Dir? {
        SetOpenAllSkeleton(items[0].children, b);
      }
      SetOpenAllSkeleton(items[1..], b);
      assert SetOpenAll(items, b)[1..] == SetOpenAll(items[1..], b);
    }
  }

  /** Trees that differ only in open flags hold the same values in the same order. */
  lemma {:induction false} SkeletonValues<V>(x: seq<Node<V>>, y: seq<Node<V>>)
    requires SameSkeleton(x, y)
    ensures AllValues(x) == AllValues(y)
  {
    if x != [] {
      if x[0].Dir? {
        SkeletonValues(x[0].children, y[0].children);
      }
      SkeletonValues(x[1..], y[1..]);
    }
  }

  /**
   * Trees that differ only in open flags answer every lookup alike: the same
   * success, the same kind of node and the same values below it.
   */
  lemma {:induction false} SkeletonFindItem<V>(x: seq<Node<V>>, y: seq<Node<V>>, target: V)
    requires SameSkeleton(x, y)
    ensures FindItem(x, target).Some? == FindItem(y, target).Some?
    ensures FindItem(x, target).Some? ==>
      FindItem(x, target).value.Dir? == FindItem(y, target).value.Dir? &&
      (FindItem(x, target).value.Dir? ==>
        AllValues(FindItem(x, target).value.children) == AllValues(FindItem(y, target).value.children))
  {
    if x != [] {
      if x[0].Dir? {
        SkeletonFindItem(x[0].children, y[0].children, target);
        SkeletonValues(x[0].children, y[0].children);
      }
      SkeletonFindItem(x[1..], y[1..], target);
    }
  }

  // ------------------------------------------------------------ concatenation
  // The source walks a list of siblings with a `for` loop; these lemmas let
  // a loop over `items[..i]` extend its result one sibling at a time.

  lemma {:induction false} FlattenOpenConcat<V>(a: seq<Node<V>>, b: seq<Node<V>>, level: nat)
    ensures FlattenOpen(a + b, level) == FlattenOpen(a, level) + FlattenOpen(b, level)
  {
    if a == [] {
      assert a + b == b;
    } else {
      assert (a + b)[0] == a[0];
      assert (a + b)[1..] == a[1..] + b;
      FlattenOpenConcat(a[1..], b, level);
    }
  }

  lemma {:induction false} FlattenAllConcat<V>(a: seq<Node<V>>, b: seq<Node<V>>, level: nat)
    ensures FlattenAll(a + b, level) == FlattenAll(a, level) + FlattenAll(b, level)
  {
    if a == [] {
      assert a + b == b;
    } else {
      assert (a + b)[0] == a[0];
      assert (a + b)[1..] == a[1..] + b;
      FlattenAllConcat(a[1..], b, level);
    }
  }

  lemma {:induction false} AllValuesConcat<V>(a: seq<Node<V>>, b: seq<Node<V>>)
    ensures AllValues(a + b) == AllValues(a) + AllValues(b)
  {
    if a == [] {
      assert a + b == b;
    } else {
      assert (a + b)[0] == a[0];
      assert (a + b)[1..] == a[1..] + b;
      AllValuesConcat(a[1..], b);
    }
  }

  lemma {:induction false} SetOpenAllConcat<V>(a: seq<Node<V>>, b: seq<Node<V>>, open: bool)
    ensures SetOpenAll(a + b, open) == SetOpenAll(a, open) + SetOpenAll(b, open)
  {
    if a == [] {
      assert a + b == b;
    } else {
      assert (a + b)[0] == a[0];
      assert (a + b)[1..] == a[1..] + b;
      SetOpenAllConcat(a[1..], b, open);
    }
  }

  lemma {:induction false} AllDirsExpandedConcat<V>(a: seq<Node<V>>, b: seq<Node<V>>)
    ensures AllDirsExpanded(a + b) <==> AllDirsExpanded(a) && AllDirsExpanded(b)
  {
    if a == [] {
      assert a + b == b;
    } else {
      assert (a + b)[0] == a[0];
      assert (a + b)[1..] == a[1..] + b;
      AllDirsExpandedConcat(a[1..], b);
    }
  }

  lemma {:induction false} FindItemConcat<V>(a: seq<Node<V>>, b: seq<Node<V>>, target: V)
    ensures FindItem(a + b, target) == if FindItem(a, target).Some? then FindItem(a, target) else FindItem(b, target)
  {
    if a == [] {
      assert a + b == b;
    } else {
      assert (a + b)[0] == a[0];
      assert (a + b)[1..] == a[1..] + b;
      FindItemConcat(a[1..], b, target);
    }
  }

  lemma {:induction false} ToggleDirConcat<V>(a: seq<Node<V>>, b: seq<Node<V>>, target: V)
    ensures ToggleDir(a + b, target) ==
      if ToggleDir(a, target).1 then (ToggleDir(a, target).0 + b, true)
      else (a + ToggleDir(b, target).0, ToggleDir(b, target).1)
  {
    if a == [] {
      assert a + b == b;
      assert a + ToggleDir(b, target).0 == ToggleDir(b, target).0;
    } else {
      var n := a[0];
      assert (a + b)[0] == n;
      assert (a + b)[1..] == a[1..] + b;
      if n.Dir? && n.value == target {
        assert [n.(open := !n.open)] + (a + b)[1..] == [n.(open := !n.open)] + a[1..] + b;
      } else if n.Dir? && ToggleDir(n.children, target).1 {
        assert [n.(children := ToggleDir(n.children, target).0)] + (a + b)[1..]
            == [n.(children := ToggleDir(n.children, target).0)] + a[1..] + b;
      } else {
        ToggleDirConcat(a[1..], b, target);
        var ra := ToggleDir(a[1..], target);
        var rab := ToggleDir(a[1..] + b, target);
        assert ToggleDir(a + b, target) == ([n] + rab.0, rab.1);
        assert ToggleDir(a, target) == ([n] + ra.0, ra.1);
        if ra.1 {
          assert [n] + (ra.0 + b) == [n] + ra.0 + b;
        } else {
          var rb := ToggleDir(b, target);
          assert [n] + (a[1..] + rb.0) == a + rb.0;
        }
      }
    }
  }
}
