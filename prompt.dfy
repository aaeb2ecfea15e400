/**
 * The tree-select prompt object. Its fields are the state the source keeps
 * on `this`; every method changes them in place and is proved to make the
 * step module PromptModel describes, keeping the invariant `Valid`.
 */
module TreeSelect {
  import opened Wrappers
  import opened Seqs
  import opened Fuzzy
  import opened Tree
  import opened TreeFacts
  import opened Selection
  import opened Search
  import opened Walks
  import opened PromptModel

  class TreeSelectPrompt<V(==)> {
    var tree: seq<Node<V>>
    var flatTree: seq<FlatItem<V>>
    var cursor: nat
    var value: seq<V>
    var searchQuery: string
    var isSearching: bool
    var state: PromptState
    const multiple: bool
    const searchable: bool
    const searchDirectoriesOnly: bool

    /** What `getState` reports, together with the tree. */
    function Snap(): Snapshot<V>
      reads this
    {
      Snapshot(tree, flatTree, cursor, value, searchQuery, isSearching, state)
    }

    function Cfg(): Config {
      Config(multiple, searchable, searchDirectoriesOnly)
    }

    predicate Valid()
      reads this
    {
      Consistent(Snap())
    }

    /** Options with defaults applied, the tree normalised, the flat tree built. */
    constructor(opts: Options<V>, show: V -> string)
      ensures Snap() == Start(opts, show) && Cfg() == ConfigOf(opts) && Valid()
    {
      tree := NormalizeTree(opts.tree, show);
      multiple := opts.multiple.GetOr(true);
      searchable := opts.searchable.GetOr(true);
      searchDirectoriesOnly := opts.searchDirectoriesOnly.GetOr(false);
      value := opts.initialValues.GetOr([]);
      flatTree := [];
      cursor := 0;
      searchQuery := "";
      isSearching := false;
      state := Initial;
      new;
      RebuildFlatTree();
    }

    /** `rebuildFlatTree`. */
    method RebuildFlatTree()
      modifies this`flatTree
      ensures flatTree == FlattenOpen(tree, 0)
    {
      flatTree := [];
      Flatten(tree, 0);
    }

    /** The `flatten` closure: push each row, and an open directory's rows after it. */
    method Flatten(items: seq<Node<V>>, level: nat)
      modifies this`flatTree
      ensures flatTree == old(flatTree) + FlattenOpen(items, level)
    {
      var i := 0;
      while i < |items|
        invariant 0 <= i <= |items|
        invariant flatTree == old(flatTree) + FlattenOpen(items[..i], level)
      {
        var item := items[i];
        var before := flatTree;
        flatTree := flatTree + [Flat(item, level)];
        var mid := flatTree;
        if item.Dir? && item.open {
          Flatten(item.children, level + 1);
        }
        FlattenOpenPushed(item, level, before, mid, flatTree);
        FlattenOpenStep(items, i, level, old(flatTree), before, flatTree);
        i := i + 1;
      }
      assert items[..i] == items;
    }

    /** `getVisibleFlatTree`. */
    method GetVisibleFlatTree() returns (visible: seq<FlatItem<V>>)
      ensures visible == Visible(Cfg(), Snap())
    {
      var q := Squash(searchQuery);
      if q == [] {
        return flatTree;
      }
      var full := BuildFullFlatTree(tree);
      visible := FilterRows(full, q, searchDirectoriesOnly);
    }

    /** `toggleDirectory`. */
    method ToggleDirectory(t: V)
      modifies this`tree, this`flatTree
      ensures Snap() == ToggleDirectoryStep(old(Snap()), t)
    {
      var toggled, found := FindAndToggle(tree, t);
      if found {
        tree := toggled;
        RebuildFlatTree();
      }
    }

    /** `toggleSelection`. */
    method ToggleSelection(t: V)
      modifies this`value
      ensures value == Toggled(tree, old(value), t, multiple)
    {
      var isCurrentlySelected := t in value;
      var targetItem := FindItemIn(tree, t);
      if !multiple && targetItem.Some? && targetItem.value.Dir? {
        return;
      }
      if isCurrentlySelected {
        value := Without(value, [t]);
        if targetItem.Some? && targetItem.value.Dir? {
          DeselectChildren(targetItem.value.children);
          WithoutWithout(old(value), [t], AllValues(targetItem.value.children));
        } else {
          WithoutWithout(old(value), [t], []);
          WithoutNothing(value, []);
          assert [t] + [] == [t];
        }
      } else if multiple {
        value := value + [t];
        if targetItem.Some? && targetItem.value.Dir? {
          SelectChildren(targetItem.value.children);
        }
      } else {
        value := [t];
      }
    }

    /** `selectChildren`: push, in pre-order, every value below that is not yet selected. */
    method SelectChildren(children: seq<Node<V>>)
      modifies this`value
      ensures value == AddMissing(old(value), AllValues(children))
    {
      var i := 0;
      while i < |children|
        invariant 0 <= i <= |children|
        invariant value == AddMissing(old(value), AllValues(children[..i]))
      {
        var child := children[i];
        var before := value;
        if child.value !in value {
          value := value + [child.value];
        }
        var pushed := value;
        AddMissingOne(before, child.value);
        if child.Dir? {
          SelectChildren(child.children);
        }
        SelectChildStep(children, i, old(value), before, pushed, value);
        i := i + 1;
      }
      assert children[..i] == children;
    }

    /** `deselectChildren`: filter out every value below. */
    method DeselectChildren(children: seq<Node<V>>)
      modifies this`value
      ensures value == Without(old(value), AllValues(children))
    {
      var i := 0;
      assert children[..0] == [];
      WithoutNothing(value, []);
      while i < |children|
        invariant 0 <= i <= |children|
        invariant value == Without(old(value), AllValues(children[..i]))
      {
        var child := children[i];
        var before := value;
        value := Without(value, [child.value]);
        var filtered := value;
        if child.Dir? {
          DeselectChildren(child.children);
        }
        DeselectChildStep(children, i, old(value), before, filtered, value);
        i := i + 1;
      }
      assert children[..i] == children;
    }

    /** `expandAll`. */
    method ExpandAll()
      modifies this`tree, this`flatTree
      ensures tree == SetOpenAll(old(tree), true) && flatTree == FlattenOpen(tree, 0)
    {
      tree := SetOpenRecursive(tree, true);
      RebuildFlatTree();
    }

    /** `collapseAll`. */
    method CollapseAll()
      modifies this`tree, this`flatTree
      ensures tree == SetOpenAll(old(tree), false) && flatTree == FlattenOpen(tree, 0)
    {
      tree := SetOpenRecursive(tree, false);
      RebuildFlatTree();
    }

    /** `selectAll`: every value of the tree, in multi-selection mode only. */
    method SelectAll()
      modifies this`value
      ensures value == if multiple then AllValues(tree) else old(value)
    {
      if !multiple {
        return;
      }
      value := GetAllValues(tree);
    }

    /** `deselectAll`. */
    method DeselectAll()
      modifies this`value
      ensures value == []
    {
      value := [];
    }

    /** `areAllDirectoriesExpanded`. */
    method AreAllDirectoriesExpanded() returns (expanded: bool)
      ensures expanded == AllDirsExpanded(tree)
    {
      expanded := CheckExpanded(tree);
    }

    /** `areAllItemsSelected`. */
    method AreAllItemsSelected() returns (all: bool)
      ensures all == AllSelected(tree, value, multiple)
    {
      if !multiple {
        return false;
      }
      var allValues := GetAllValues(tree);
      all := |allValues| == |value| && forall v :: v in allValues ==> v in value;
    }

    /** `toggleExpandAll`. */
    method ToggleExpandAll()
      modifies this`tree, this`flatTree
      ensures Snap() == ToggleExpandAllStep(old(Snap()))
    {
      var expanded := AreAllDirectoriesExpanded();
      if expanded {
        CollapseAll();
      } else {
        ExpandAll();
      }
    }

    /** `toggleSelectAll`. */
    method ToggleSelectAll()
      modifies this`value
      ensures Snap() == ToggleSelectAllStep(Cfg(), old(Snap()))
    {
      if !multiple {
        return;
      }
      var all := AreAllItemsSelected();
      if all {
        DeselectAll();
      } else {
        SelectAll();
      }
    }

    /** The `key` event listener. */
    method OnKey(ch: Option<string>, key: Option<Key>)
      requires Valid()
      modifies this
      ensures Snap() == KeyStep(Cfg(), old(Snap()), ch, key) && Valid()
    {
      KeyKeepsConsistent(Cfg(), Snap(), ch, key);
      if key.Some? && key.value.shift {
        if key.value.name == "e" {
          ToggleExpandAll();
          return;
        } else if key.value.name == "a" {
          ToggleSelectAll();
          return;
        }
      }
      if !searchable {
        return;
      }
      var name := KeyName(key);
      if name == "space" {
        return;
      }
      if name == "backspace" {
        if isSearching && |searchQuery| > 0 {
          searchQuery := searchQuery[..|searchQuery| - 1];
          if |searchQuery| == 0 {
            isSearching := false;
          }
          cursor := 0;
        }
        return;
      }
      if name == "escape" {
        if isSearching || |searchQuery| > 0 {
          searchQuery := "";
          isSearching := false;
          cursor := 0;
          if state == Cancel {
            state := Active;
          }
        }
        return;
      }
      if ch.Some? && |ch.value| == 1 && !(key.Some? && (key.value.ctrl || key.value.meta)) {
        var c := ch.value[0];
        if IsJsSpace(c) {
          return;
        }
        if 32 <= c as int <= 126 {
          isSearching := true;
          searchQuery := searchQuery + [c];
          cursor := 0;
        }
      }
    }

    /** `handleCursor`, the `cursor` event listener. */
    method HandleCursor(key: string)
      requires Valid()
      modifies this
      ensures Snap() == CursorStep(Cfg(), old(Snap()), key) && Valid()
    {
      CursorKeepsConsistent(Cfg(), Snap(), key);
      if state != Active || key == "" {
        return;
      }
      var visible := GetVisibleFlatTree();
      var here := cursor < |visible|;
      if key == "up" {
        cursor := if cursor == 0 then 0 else cursor - 1;
      } else if key == "down" {
        cursor := Min(Max(|visible| - 1, 0), cursor + 1);
      } else if key == "right" {
        if here && visible[cursor].isDirectory && !visible[cursor].isOpen {
          ToggleDirectory(visible[cursor].value);
        }
      } else if key == "left" {
        if here && visible[cursor].isDirectory && visible[cursor].isOpen {
          ToggleDirectory(visible[cursor].value);
        }
      } else if key == "space" {
        if here {
          if !multiple && visible[cursor].isDirectory {
            return;
          }
          ToggleSelection(visible[cursor].value);
        }
      }
    }
  }

  /** `Math.min` on the cursor arithmetic. */
  function Min(a: int, b: int): (r: int)
    ensures r <= a && r <= b && (r == a || r == b)
  {
    if a <= b then a else b
  }

  /** `Math.max` on the cursor arithmetic. */
  function Max(a: int, b: int): (r: int)
    ensures r >= a && r >= b && (r == a || r == b)
  {
    if a >= b then a else b
  }
}
