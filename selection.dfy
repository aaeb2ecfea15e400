/**
 * The selection of the tree-select prompt: toggling one value (cascading to
 * a directory's descendants when several values may be selected), and
 * selecting or deselecting everything at once.
 */
module Selection {
  import opened Wrappers
  import opened Seqs
  import opened Tree
  import opened TreeFacts

  /** The node `findItem` lands on is a directory. */
  predicate IsDirValue<V(==)>(tree: seq<Node<V>>, t: V) {
    FindItem(tree, t).Some? && FindItem(tree, t).value.Dir?
  }

  /**
   * The values `selectChildren`/`deselectChildren` visit for `t`: every value
   * below the first node holding `t`, in pre-order; none when that node is a
   * leaf or there is no such node.
   */
  function Descendants<V(==)>(tree: seq<Node<V>>, t: V): seq<V> {
    if IsDirValue(tree, t) then AllValues(FindItem(tree, t).value.children) else []
  }

  /**
   * `toggleSelection(t)`. In single-selection mode a directory is never
   * toggled. A selected value is removed together with its descendants; an
   * unselected one is appended, followed in multi-selection mode by those of
   * its descendants not yet selected, and replaces the whole selection in
   * single-selection mode.
   */
  function Toggled<V(==)>(tree: seq<Node<V>>, value: seq<V>, t: V, multiple: bool): seq<V> {
    if !multiple && IsDirValue(tree, t) then value
    else if t in value then Without(value, [t] + Descendants(tree, t))
    else if multiple then AddMissing(value + [t], Descendants(tree, t))
    else [t]
  }

  /**
   * `areAllItemsSelected`: in multi-selection mode only, the selection is as
   * long as the list of every value of the tree and holds each of them.
   */
  predicate AllSelected<V(==)>(tree: seq<Node<V>>, value: seq<V>, multiple: bool) {
    multiple && |AllValues(tree)| == |value| && forall x :: x in AllValues(tree) ==> x in value
  }

  /**
   * `toggleSelectAll`: nothing in single-selection mode; otherwise
   * `deselectAll` when everything is selected and `selectAll` when not.
   */
  function ToggledAll<V(==)>(tree: seq<Node<V>>, value: seq<V>, multiple: bool): seq<V> {
    if !multiple then value
    else if AllSelected(tree, value, multiple) then []
    else AllValues(tree)
  }

  /** No value of the selection names a directory. */
  predicate NoDirectories<V(==)>(tree: seq<Node<V>>, value: seq<V>) {
    forall x :: x in value ==> !IsDirValue(tree, x)
  }

  // ---------------------------------------------------------------- toggling

  /**
   * Selecting in multi-selection mode: the old selection stays first and in
   * order, the value comes right after it, then its descendants that were
   * missing; nothing else is added and no value is added twice.
   */
  lemma SelectCascade<V>(tree: seq<Node<V>>, value: seq<V>, t: V)
    requires t !in value
    ensures var r := Toggled(tree, value, t, true);
      |r| > |value| && r[..|value|] == value && r[|value|] == t &&
      (forall d :: d in Descendants(tree, t) ==> d in r) &&
      (forall x :: x in r ==> x in value || x == t || x in Descendants(tree, t)) &&
      (forall k :: |value| < k < |r| ==> r[k] !in value + [t]) &&
      (forall i, j :: |value| < i < j < |r| ==> r[i] != r[j]) &&
      (Distinct(value) ==> Distinct(r))
  {
    var acc := value + [t];
    AddMissingSpec(acc, Descendants(tree, t));
    var r := Toggled(tree, value, t, true);
    assert r[..|acc|] == acc;
    assert r[..|value|] == acc[..|value|] == value;
    assert r[|value|] == acc[|value|];
    if Distinct(value) {
      forall i, j | 0 <= i < j < |acc| ensures acc[i] != acc[j] {
        if j == |value| {
          assert acc[i] == value[i];
        }
      }
    }
  }

  /**
   * Deselecting: exactly the value and its descendants leave the selection,
   * which otherwise keeps its order and every copy of each remaining value.
   */
  lemma DeselectCascade<V>(tree: seq<Node<V>>, value: seq<V>, t: V, multiple: bool)
    requires t in value
    requires multiple || !IsDirValue(tree, t)
    ensures var r := Toggled(tree, value, t, multiple);
      (forall x :: x in r <==> x in value && x != t && x !in Descendants(tree, t)) &&
      Subseq(r, value) &&
      (forall y :: multiset(r)[y] == if y == t || y in Descendants(tree, t) then 0 else multiset(value)[y]) &&
      (Distinct(value) ==> Distinct(r))
  {
    var removed := [t] + Descendants(tree, t);
    WithoutMembers(value, removed);
    WithoutMultiset(value, removed);
    WithoutKeepsOrder(value, removed);
    if Distinct(value) {
      WithoutDistinct(value, removed);
    }
    assert forall x :: x in removed <==> x == t || x in Descendants(tree, t);
  }

  /**
   * Single-selection mode keeps the selection to at most one leaf value: a
   * fresh leaf replaces it, the selected one clears it, and a directory
   * leaves it as it was.
   */
  lemma SingleSelectionKept<V>(tree: seq<Node<V>>, value: seq<V>, t: V)
    requires |value| <= 1 && NoDirectories(tree, value)
    ensures var r := Toggled(tree, value, t, false);
      |r| <= 1 && NoDirectories(tree, r) &&
      (!IsDirValue(tree, t) ==> (t in r <==> t !in value)) &&
      (IsDirValue(tree, t) ==> r == value)
  {
    var r := Toggled(tree, value, t, false);
    if !IsDirValue(tree, t) && t in value {
      assert value == [t];
      assert Descendants(tree, t) == [];
      assert [t] + [] == [t] && [t][1..] == [];
      assert r == Without([t], [t]) == [] + Without([], [t]);
    }
  }

  /**
   * Selecting a value and then toggling it again removes it and all its
   * descendants; when none of them was selected before, the selection is
   * back where it started.
   */
  lemma SelectThenDeselect<V>(tree: seq<Node<V>>, value: seq<V>, t: V)
    requires t !in value
    ensures Toggled(tree, Toggled(tree, value, t, true), t, true) == Without(value, [t] + Descendants(tree, t))
    ensures (forall d :: d in Descendants(tree, t) ==> d !in value) ==>
      Toggled(tree, Toggled(tree, value, t, true), t, true) == value
  {
    var d := Descendants(tree, t);
    var removed := [t] + d;
    SelectCascade(tree, value, t);
    var r := Toggled(tree, value, t, true);
    assert t in r;
    WithoutAddMissing(value + [t], d, removed) by {
      assert forall v :: v in d ==> v in removed;
    }
    WithoutConcat(value, [t], removed);
    assert Without([t], removed) == [];
    assert value + [t] + [] == value + [t];
    if forall x :: x in d ==> x !in value {
      WithoutNothing(value, removed);
    }
  }

  /**
   * Selection toggling reads only values and directory structure, so it
   * does not depend on which directories are expanded.
   */
  lemma ToggledIgnoresExpansion<V>(x: seq<Node<V>>, y: seq<Node<V>>, value: seq<V>, t: V, multiple: bool)
    requires SameSkeleton(x, y)
    ensures Toggled(x, value, t, multiple) == Toggled(y, value, t, multiple)
  {
    SkeletonFindItem(x, y, t);
  }

  // -------------------------------------------------------- select / deselect all

  /**
   * When the tree's values are distinct, "all selected" means the selection
   * is a permutation of them.
   */
  lemma AllSelectedIsPermutation<V>(tree: seq<Node<V>>, value: seq<V>, multiple: bool)
    requires Distinct(AllValues(tree))
    ensures AllSelected(tree, value, multiple) <==>
      multiple && multiset(value) == multiset(AllValues(tree))
  {
    if AllSelected(tree, value, multiple) {
      CoveredPermutation(AllValues(tree), value);
    }
    if multiple && multiset(value) == multiset(AllValues(tree)) {
      assert |value| == |multiset(value)| == |multiset(AllValues(tree))| == |AllValues(tree)|;
      forall x | x in AllValues(tree) ensures x in value {
        assert x in multiset(AllValues(tree));
      }
    }
  }

  /**
   * In multi-selection mode `toggleSelectAll` flips the "all selected"
   * answer, except on an empty tree, where the empty selection is all of it.
   */
  lemma ToggleAllFlips<V>(tree: seq<Node<V>>, value: seq<V>)
    ensures AllSelected(tree, ToggledAll(tree, value, true), true) <==>
      !AllSelected(tree, value, true) || AllValues(tree) == []
  {
  }

  /** Toggling everything twice from "all selected" restores the tree's full list of values. */
  lemma ToggleAllTwice<V>(tree: seq<Node<V>>, value: seq<V>)
    ensures AllSelected(tree, value, true) ==>
      ToggledAll(tree, ToggledAll(tree, value, true), true) == AllValues(tree)
    ensures !AllSelected(tree, value, true) && AllValues(tree) != [] ==>
      ToggledAll(tree, ToggledAll(tree, value, true), true) == []
  {
  }

  /** Expansion does not change what "all selected" answers. */
  lemma AllSelectedIgnoresExpansion<V>(x: seq<Node<V>>, y: seq<Node<V>>, value: seq<V>, multiple: bool)
    requires SameSkeleton(x, y)
    ensures AllSelected(x, value, multiple) == AllSelected(y, value, multiple)
    ensures ToggledAll(x, value, multiple) == ToggledAll(y, value, multiple)
  {
    SkeletonValues(x, y);
  }
}
