/**
 * The recursive walks the prompt runs over a list of sibling nodes: each is
 * a `for` loop over the siblings that recurses into a directory's children.
 * Each method is proved to compute the recursive definition it walks.
 */
module Walks {
  import opened Wrappers
  import opened Seqs
  import opened Tree
  import opened TreeFacts
  import opened Fuzzy
  import opened Search

  /** The full flattening of a single node. */
  lemma FlattenAllSingle<V>(n: Node<V>, level: nat)
    ensures FlattenAll([n], level)
            == [Flat(n, level)] + (if n.Dir? then FlattenAll(n.children, level + 1) else [])
  {
    assert [n][1..] == [];
    var c := if n.Dir? then FlattenAll(n.children, level + 1) else [];
    assert [Flat(n, level)] + c + [] == [Flat(n, level)] + c;
  }

  /** Pushing a node's row and then every row below it pushes its full flattening. */
  lemma FlattenAllPushed<V>(n: Node<V>, level: nat, before: seq<FlatItem<V>>, mid: seq<FlatItem<V>>, after: seq<FlatItem<V>>)
    requires mid == before + [Flat(n, level)]
    requires after == if n.Dir? then mid + FlattenAll(n.children, level + 1) else mid
    ensures after == before + FlattenAll([n], level)
  {
    FlattenAllSingle(n, level);
    if n.Dir? {
      AppendAssoc(before, [Flat(n, level)], FlattenAll(n.children, level + 1), mid, after);
    } else {
      assert [Flat(n, level)] + [] == [Flat(n, level)];
    }
  }

  /** The full flattening of one more sibling. */
  lemma FlattenAllPrefix<V>(items: seq<Node<V>>, i: nat, level: nat)
    requires i < |items|
    ensures FlattenAll(items[..i + 1], level) == FlattenAll(items[..i], level) + FlattenAll([items[i]], level)
  {
    assert items[..i + 1] == items[..i] + [items[i]];
    FlattenAllConcat(items[..i], [items[i]], level);
  }

  /** One iteration of `flattenAll`'s loop in `buildFullFlatTree`. */
  lemma FlattenAllStep<V>(items: seq<Node<V>>, i: nat, level: nat, acc: seq<FlatItem<V>>,
                          before: seq<FlatItem<V>>, after: seq<FlatItem<V>>)
    requires i < |items|
    requires before == acc + FlattenAll(items[..i], level)
    requires after == before + FlattenAll([items[i]], level)
    ensures after == acc + FlattenAll(items[..i + 1], level)
  {
    FlattenAllPrefix(items, i, level);
    AppendAssoc(acc, FlattenAll(items[..i], level), FlattenAll([items[i]], level), before, after);
  }

  /** The expansion-aware flattening of a single node. */
  lemma FlattenOpenSingle<V>(n: Node<V>, level: nat)
    ensures FlattenOpen([n], level)
            == [Flat(n, level)] + (if n.Dir? && n.open then FlattenOpen(n.children, level + 1) else [])
  {
    assert [n][1..] == [];
    var c := if n.Dir? && n.open then FlattenOpen(n.children, level + 1) else [];
    assert [Flat(n, level)] + c + [] == [Flat(n, level)] + c;
  }

  /** The expansion-aware flattening of one more sibling. */
  lemma FlattenOpenPrefix<V>(items: seq<Node<V>>, i: nat, level: nat)
    requires i < |items|
    ensures FlattenOpen(items[..i + 1], level) == FlattenOpen(items[..i], level) + FlattenOpen([items[i]], level)
  {
    assert items[..i + 1] == items[..i] + [items[i]];
    FlattenOpenConcat(items[..i], [items[i]], level);
  }

  /**
   * Pushing a node's row, and then its rows below when it is an open
   * directory, pushes its expansion-aware flattening.
   */
  lemma FlattenOpenPushed<V>(n: Node<V>, level: nat, before: seq<FlatItem<V>>, mid: seq<FlatItem<V>>, after: seq<FlatItem<V>>)
    requires mid == before + [Flat(n, level)]
    requires after == if n.Dir? && n.open then mid + FlattenOpen(n.children, level + 1) else mid
    ensures after == before + FlattenOpen([n], level)
  {
    FlattenOpenSingle(n, level);
    if n.Dir? && n.open {
      AppendAssoc(before, [Flat(n, level)], FlattenOpen(n.children, level + 1), mid, after);
    } else {
      assert [Flat(n, level)] + [] == [Flat(n, level)];
    }
  }

  /** One iteration of `flatten`'s loop in `rebuildFlatTree`, which descends only into open directories. */
  lemma FlattenOpenStep<V>(items: seq<Node<V>>, i: nat, level: nat, acc: seq<FlatItem<V>>,
                           before: seq<FlatItem<V>>, after: seq<FlatItem<V>>)
    requires i < |items|
    requires before == acc + FlattenOpen(items[..i], level)
    requires after == before + FlattenOpen([items[i]], level)
    ensures after == acc + FlattenOpen(items[..i + 1], level)
  {
    FlattenOpenPrefix(items, i, level);
    AppendAssoc(acc, FlattenOpen(items[..i], level), FlattenOpen([items[i]], level), before, after);
  }

  /** The `flattenAll` closure of `buildFullFlatTree`, pushing onto `acc`. */
  method FlattenAllOnto<V>(items: seq<Node<V>>, level: nat, acc: seq<FlatItem<V>>) returns (result: seq<FlatItem<V>>)
    ensures result == acc + FlattenAll(items, level)
  {
    result := acc;
    var i := 0;
    while i < |items|
      invariant 0 <= i <= |items|
      invariant result == acc + FlattenAll(items[..i], level)
    {
      var item := items[i];
      var before := result;
      result := result + [Flat(item, level)];
      var mid := result;
      if item.Dir? {
        result := FlattenAllOnto(item.children, level + 1, result);
      }
      FlattenAllPushed(item, level, before, mid, result);
      FlattenAllStep(items, i, level, acc, before, result);
      i := i + 1;
    }
    assert items[..i] == items;
  }

  /** `buildFullFlatTree`: every node in pre-order, whatever its open flag. */
  method BuildFullFlatTree<V>(tree: seq<Node<V>>) returns (result: seq<FlatItem<V>>)
    ensures result == FlattenAll(tree, 0)
  {
    result := FlattenAllOnto(tree, 0, []);
  }

  /** The filter over one more row. */
  lemma SearchFilterPrefix<V>(rows: seq<FlatItem<V>>, i: nat, q: string, dirsOnly: bool)
    requires i < |rows|
    ensures SearchFilter(rows[..i + 1], q, dirsOnly)
         == SearchFilter(rows[..i], q, dirsOnly) + (if Shown(rows[i], q, dirsOnly) then [rows[i]] else [])
  {
    var it := rows[i];
    assert rows[..i + 1] == rows[..i] + [it];
    SearchFilterConcat(rows[..i], [it], q, dirsOnly);
    assert [it][1..] == [];
  }

  /** The `filter` of `getVisibleFlatTree`, running the greedy matcher on each row. */
  method FilterRows<V>(rows: seq<FlatItem<V>>, q: string, dirsOnly: bool) returns (result: seq<FlatItem<V>>)
    ensures result == SearchFilter(rows, q, dirsOnly)
  {
    result := [];
    var i := 0;
    while i < |rows|
      invariant 0 <= i <= |rows|
      invariant result == SearchFilter(rows[..i], q, dirsOnly)
    {
      var it := rows[i];
      var keep := false;
      if !dirsOnly || it.isDirectory {
        keep := IsFuzzyMatch(it.name, q);
      }
      SearchFilterPrefix(rows, i, q, dirsOnly);
      if keep {
        result := result + [it];
      }
      i := i + 1;
    }
    assert rows[..i] == rows;
  }

  /** `findAndToggle` passes over `items[i]`: nothing is found up to and including it. */
  lemma ToggleDirPassOver<V>(items: seq<Node<V>>, i: nat, target: V)
    requires i < |items| && !ToggleDir(items[..i], target).1
    requires !(items[i].Dir? && items[i].value == target)
    requires items[i].Dir? ==> !ToggleDir(items[i].children, target).1
    ensures !ToggleDir(items[..i + 1], target).1
  {
    var n := items[i];
    assert items[..i + 1] == items[..i] + [n];
    ToggleDirConcat(items[..i], [n], target);
    assert [n][1..] == [];
  }

  /** `findAndToggle` stops at `items[i]`, whose subtree holds the first match. */
  lemma ToggleDirStopAt<V>(items: seq<Node<V>>, i: nat, target: V)
    requires i < |items| && !ToggleDir(items[..i], target).1
    requires items[i].Dir?
    ensures items[i].value == target ==>
      ToggleDir(items, target) == (items[..i] + [items[i].(open := !items[i].open)] + items[i + 1..], true)
    ensures items[i].value != target && ToggleDir(items[i].children, target).1 ==>
      ToggleDir(items, target)
      == (items[..i] + [items[i].(children := ToggleDir(items[i].children, target).0)] + items[i + 1..], true)
  {
    var n := items[i];
    var pre, post := items[..i], items[i..];
    SliceAt(items, i);
    ToggleDirConcat(pre, post, target);
    if n.value == target {
      ToggleDirAtHead(post, target);
      ConcatAssoc(pre, [n.(open := !n.open)], items[i + 1..]);
    } else if ToggleDir(n.children, target).1 {
      var n' := n.(children := ToggleDir(n.children, target).0);
      assert ToggleDir(post, target) == ([n'] + items[i + 1..], true);
      ConcatAssoc(pre, [n'], items[i + 1..]);
    }
  }

  /**
   * `findAndToggle`: flips `open` on the first directory in pre-order whose
   * value is `target` and reports whether there was one.
   */
  method FindAndToggle<V(==)>(items: seq<Node<V>>, target: V) returns (result: seq<Node<V>>, found: bool)
    ensures (result, found) == ToggleDir(items, target)
  {
    var i := 0;
    while i < |items|
      invariant 0 <= i <= |items|
      invariant !ToggleDir(items[..i], target).1
    {
      var item := items[i];
      if item.Dir? && item.value == target {
        ToggleDirStopAt(items, i, target);
        result := items[..i] + [item.(open := !item.open)] + items[i + 1..];
        return result, true;
      }
      if item.Dir? {
        var children, inChildren := FindAndToggle(item.children, target);
        if inChildren {
          ToggleDirStopAt(items, i, target);
          result := items[..i] + [item.(children := children)] + items[i + 1..];
          return result, true;
        }
      }
      ToggleDirPassOver(items, i, target);
      i := i + 1;
    }
    assert items[..i] == items;
    ToggleDirSpec(items, target, 0);
    result, found := items, false;
  }

  /** `findItem` on a single node: the node itself, or else the first hit below it. */
  lemma FindItemSingle<V>(n: Node<V>, target: V)
    ensures FindItem([n], target)
         == if n.value == target then Some(n) else if n.Dir? && FindItem(n.children, target).Some? then FindItem(n.children, target) else None
  {
    assert [n][1..] == [];
  }

  /** `findItem` over the siblings from `i` on, when the ones before `i` hold no hit. */
  lemma FindItemFrom<V>(items: seq<Node<V>>, i: nat, target: V)
    requires i < |items| && FindItem(items[..i], target).None?
    ensures FindItem(items, target)
         == if FindItem([items[i]], target).Some? then FindItem([items[i]], target) else FindItem(items[i + 1..], target)
  {
    SliceAt(items, i);
    FindItemConcat(items[..i], items[i..], target);
    assert items[i..] == [items[i]] + items[i + 1..];
    FindItemConcat([items[i]], items[i + 1..], target);
  }

  /** No hit up to and including `items[i]`. */
  lemma FindItemPassOver<V>(items: seq<Node<V>>, i: nat, target: V)
    requires i < |items| && FindItem(items[..i], target).None? && FindItem([items[i]], target).None?
    ensures FindItem(items[..i + 1], target).None?
  {
    assert items[..i + 1] == items[..i] + [items[i]];
    FindItemConcat(items[..i], [items[i]], target);
  }

  /** The `findItem` closure of `toggleSelection`: the first node in pre-order holding `target`. */
  method FindItemIn<V(==)>(items: seq<Node<V>>, target: V) returns (result: Option<Node<V>>)
    ensures result == FindItem(items, target)
  {
    var i := 0;
    while i < |items|
      invariant 0 <= i <= |items|
      invariant FindItem(items[..i], target).None?
    {
      var item := items[i];
      FindItemFrom(items, i, target);
      FindItemSingle(item, target);
      if item.value == target {
        return Some(item);
      }
      if item.Dir? {
        var found := FindItemIn(item.children, target);
        if found.Some? {
          return found;
        }
      }
      FindItemPassOver(items, i, target);
      i := i + 1;
    }
    assert items[..i] == items;
    result := None;
  }

  /** `checkExpanded` on a single node. */
  lemma AllDirsExpandedSingle<V>(n: Node<V>)
    ensures AllDirsExpanded([n]) <==> (n.Dir? ==> n.open && AllDirsExpanded(n.children))
  {
    assert [n][1..] == [];
  }

  /** Every directory is open in the siblings exactly when it is in each part of a split. */
  lemma AllDirsExpandedAt<V>(items: seq<Node<V>>, i: nat)
    requires i < |items|
    ensures AllDirsExpanded(items) ==> AllDirsExpanded([items[i]])
    ensures AllDirsExpanded(items[..i + 1]) <==> AllDirsExpanded(items[..i]) && AllDirsExpanded([items[i]])
  {
    SliceAt(items, i);
    AllDirsExpandedConcat(items[..i], items[i..]);
    assert items[i..] == [items[i]] + items[i + 1..];
    AllDirsExpandedConcat([items[i]], items[i + 1..]);
    assert items[..i + 1] == items[..i] + [items[i]];
    AllDirsExpandedConcat(items[..i], [items[i]]);
  }

  /** The `checkExpanded` closure of `areAllDirectoriesExpanded`. */
  method CheckExpanded<V>(items: seq<Node<V>>) returns (expanded: bool)
    ensures expanded == AllDirsExpanded(items)
  {
    var i := 0;
    while i < |items|
      invariant 0 <= i <= |items|
      invariant AllDirsExpanded(items[..i])
    {
      var item := items[i];
      AllDirsExpandedAt(items, i);
      AllDirsExpandedSingle(item);
      if item.Dir? {
        if !item.open {
          return false;
        }
        var inner := CheckExpanded(item.children);
        if !inner {
          return false;
        }
      }
      i := i + 1;
    }
    assert items[..i] == items;
    expanded := true;
  }

  /** The values of a single node and everything below it. */
  lemma AllValuesSingle<V>(n: Node<V>)
    ensures AllValues([n]) == [n.value] + (if n.Dir? then AllValues(n.children) else [])
  {
    assert [n][1..] == [];
    var kids := if n.Dir? then AllValues(n.children) else [];
    assert [n.value] + kids + [] == [n.value] + kids;
  }

  /** The values of one more sibling. */
  lemma AllValuesPrefix<V>(items: seq<Node<V>>, i: nat)
    requires i < |items|
    ensures AllValues(items[..i + 1]) == AllValues(items[..i]) + AllValues([items[i]])
  {
    assert items[..i + 1] == items[..i] + [items[i]];
    AllValuesConcat(items[..i], [items[i]]);
  }

  /** `includes` then `push`: adding one value when it is missing. */
  lemma AddMissingOne<T>(acc: seq<T>, v: T)
    ensures AddMissing(acc, [v]) == if v in acc then acc else acc + [v]
  {
    assert [v][1..] == [];
  }

  /** One iteration of `selectChildren`'s loop. */
  lemma SelectChildStep<V>(children: seq<Node<V>>, i: nat, acc: seq<V>, before: seq<V>, pushed: seq<V>, after: seq<V>)
    requires i < |children|
    requires before == AddMissing(acc, AllValues(children[..i]))
    requires pushed == AddMissing(before, [children[i].value])
    requires after == AddMissing(pushed, if children[i].Dir? then AllValues(children[i].children) else [])
    ensures after == AddMissing(acc, AllValues(children[..i + 1]))
  {
    var c := children[i];
    var kids := if c.Dir? then AllValues(c.children) else [];
    AllValuesPrefix(children, i);
    AllValuesSingle(c);
    AddMissingConcat(acc, AllValues(children[..i]), AllValues([c]));
    AddMissingConcat(before, [c.value], kids);
  }

  /** One iteration of `deselectChildren`'s loop. */
  lemma DeselectChildStep<V>(children: seq<Node<V>>, i: nat, acc: seq<V>, before: seq<V>, filtered: seq<V>, after: seq<V>)
    requires i < |children|
    requires before == Without(acc, AllValues(children[..i]))
    requires filtered == Without(before, [children[i].value])
    requires after == if children[i].Dir? then Without(filtered, AllValues(children[i].children)) else filtered
    ensures after == Without(acc, AllValues(children[..i + 1]))
  {
    var c := children[i];
    var kids := if c.Dir? then AllValues(c.children) else [];
    var pre := AllValues(children[..i]);
    AllValuesPrefix(children, i);
    AllValuesSingle(c);
    WithoutWithout(acc, pre, [c.value]);
    WithoutWithout(acc, pre + [c.value], kids);
    ConcatAssoc(pre, [c.value], kids);
    if !c.Dir? {
      WithoutNothing(filtered, kids);
    }
  }

  /** Pushing a node's value and then the values below it pushes its values. */
  lemma AllValuesPushed<V>(n: Node<V>, before: seq<V>, mid: seq<V>, after: seq<V>)
    requires mid == before + [n.value]
    requires after == if n.Dir? then mid + AllValues(n.children) else mid
    ensures after == before + AllValues([n])
  {
    AllValuesSingle(n);
    if n.Dir? {
      AppendAssoc(before, [n.value], AllValues(n.children), mid, after);
    } else {
      assert [n.value] + [] == [n.value];
    }
  }

  /** The `getAllValues` closure of `selectAll` and `areAllItemsSelected`. */
  method GetAllValues<V>(items: seq<Node<V>>) returns (values: seq<V>)
    ensures values == AllValues(items)
  {
    values := [];
    var i := 0;
    while i < |items|
      invariant 0 <= i <= |items|
      invariant values == AllValues(items[..i])
    {
      var item := items[i];
      var before := values;
      values := values + [item.value];
      var mid := values;
      if item.Dir? {
        var inner := GetAllValues(item.children);
        values := values + inner;
      }
      AllValuesPushed(item, before, mid, values);
      AllValuesPrefix(items, i);
      i := i + 1;
    }
    assert items[..i] == items;
  }

  /** `expandRecursive`/`collapseRecursive` on a single node. */
  lemma SetOpenAllSingle<V>(n: Node<V>, open: bool)
    ensures SetOpenAll([n], open) == [if n.Dir? then n.(open := open, children := SetOpenAll(n.children, open)) else n]
  {
    assert [n][1..] == [];
  }

  /** The flags set on one more sibling. */
  lemma SetOpenAllPrefix<V>(items: seq<Node<V>>, i: nat, open: bool)
    requires i < |items|
    ensures SetOpenAll(items[..i + 1], open) == SetOpenAll(items[..i], open) + SetOpenAll([items[i]], open)
  {
    assert items[..i + 1] == items[..i] + [items[i]];
    SetOpenAllConcat(items[..i], [items[i]], open);
  }

  /**
   * The `expandRecursive` (open = true) and `collapseRecursive` (open =
   * false) closures: every directory at every depth gets the flag.
   */
  method SetOpenRecursive<V>(items: seq<Node<V>>, open: bool) returns (result: seq<Node<V>>)
    ensures result == SetOpenAll(items, open)
  {
    result := [];
    var i := 0;
    while i < |items|
      invariant 0 <= i <= |items|
      invariant result == SetOpenAll(items[..i], open)
    {
      var item := items[i];
      SetOpenAllSingle(item, open);
      SetOpenAllPrefix(items, i, open);
      if item.Dir? {
        var children := SetOpenRecursive(item.children, open);
        result := result + [item.(open := open, children := children)];
      } else {
        result := result + [item];
      }
      i := i + 1;
    }
    assert items[..i] == items;
  }
}
