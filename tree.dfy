/**
 * The canonical tree of the tree-select prompt, its normaliser, its two
 * pre-order flattenings, node lookup by value and the expansion transforms.
 */
module Tree {
  import opened Wrappers
  import opened Seqs

  /**
   * A canonical tree node. A node is a directory exactly when it carries a
   * children list (an empty list still makes it a directory).
   */
  datatype Node<V> =
    | Leaf(value: V, name: string, open: bool)
    | Dir(value: V, name: string, open: bool, children: seq<Node<V>>)

  /**
   * What a caller may pass as a tree element: a raw value (a string, or an
   * object without a `value` field), or a record with an optional name, an
   * optional open flag and, for a directory, a children list.
   */
  datatype RawItem<V> =
    | Plain(raw: V)
    | Item(value: V, name: Option<string>, open: Option<bool>)
    | Folder(value: V, name: Option<string>, open: Option<bool>, children: seq<RawItem<V>>)

  /** One row of a flattened view. */
  datatype FlatItem<V> = FlatItem(value: V, name: string, level: nat, isDirectory: bool, isOpen: bool)

  // ---------------------------------------------------------------- normaliser

  /** `name || String(value)`: an absent or empty name falls back to the value's string form. */
  function NameOr<V>(name: Option<string>, value: V, show: V -> string): string {
    if name.Some? && name.value != "" then name.value else show(value)
  }

  /** `normalizeTree`/`normalizeTreeItem`; `show` stands for JavaScript's `String(value)`. */
  function NormalizeTree<V>(items: seq<RawItem<V>>, show: V -> string): (r: seq<Node<V>>)
    ensures |r| == |items|
  {
    if items == [] then []
    else
      var head := match items[0]
        case Plain(v) => Leaf(v, show(v), false)
        case Item(v, name, open) => Leaf(v, NameOr(name, v, show), open.GetOr(false))
        case Folder(v, name, open, cs) => Dir(v, NameOr(name, v, show), open.GetOr(false), NormalizeTree(cs, show));
      [head] + NormalizeTree(items[1..], show)
  }

  /** The values of the raw input, in pre-order. */
  function RawValues<V>(items: seq<RawItem<V>>): seq<V> {
    if items == [] then []
    else
      match items[0]
      case Plain(v) => [v] + RawValues(items[1..])
      case Item(v, _, _) => [v] + RawValues(items[1..])
      case Folder(v, _, _, cs) => [v] + RawValues(cs) + RawValues(items[1..])
  }

  /** Every node's name is final: it is empty only when the value's string form is. */
  predicate NamesSettled<V>(items: seq<Node<V>>, show: V -> string) {
    items == [] ||
    ((items[0].name == "" ==> show(items[0].value) == "") &&
     (items[0].Dir? ==> NamesSettled(items[0].children, show)) &&
     NamesSettled(items[1..], show))
  }

  /** The record a canonical node would be written as. */
  function Export<V>(items: seq<Node<V>>): (r: seq<RawItem<V>>)
    ensures |r| == |items|
  {
    if items == [] then []
    else
      var n := items[0];
      var head := match n
        case Leaf(v, name, open) => Item(v, Some(name), Some(open))
        case Dir(v, name, open, cs) => Folder(v, Some(name), Some(open), Export(cs));
      [head] + Export(items[1..])
  }

  // ------------------------------------------------------------- flattenings

  /**
   * The row of a node. The source writes `name || String(value)`; on a
   * normalised tree every name is already final (NamesSettled), so the row
   * takes the node's own name.
   */
  function Flat<V>(n: Node<V>, level: nat): FlatItem<V> {
    FlatItem(n.value, n.name, level, n.Dir?, n.open)
  }

  /** `rebuildFlatTree`: pre-order, descending into a directory only when it is open. */
  function FlattenOpen<V>(items: seq<Node<V>>, level: nat): seq<FlatItem<V>> {
    if items == [] then []
    else
      [Flat(items[0], level)]
      + (if items[0].Dir? && items[0].open then FlattenOpen(items[0].children, level + 1) else [])
      + FlattenOpen(items[1..], level)
  }

  /** `buildFullFlatTree`: pre-order over every node, ignoring `open`. */
  function FlattenAll<V>(items: seq<Node<V>>, level: nat): seq<FlatItem<V>> {
    if items == [] then []
    else
      [Flat(items[0], level)]
      + (if items[0].Dir? then FlattenAll(items[0].children, level + 1) else [])
      + FlattenAll(items[1..], level)
  }

  /** `getAllValues`: every value of the tree, in pre-order. */
  function AllValues<V>(items: seq<Node<V>>): seq<V> {
    if items == [] then []
    else [items[0].value] + (if items[0].Dir? then AllValues(items[0].children) else []) + AllValues(items[1..])
  }

  /**
   * A flattening lists this node's children: it is a directory, and it is
   * open unless the flattening lists every node (`all`).
   */
  predicate Descends<V>(n: Node<V>, all: bool) {
    n.Dir? && (all || n.open)
  }

  /** The full flattening (`all`) or the expansion-aware one. */
  function Rows<V>(items: seq<Node<V>>, level: nat, all: bool): seq<FlatItem<V>> {
    if all then FlattenAll(items, level) else FlattenOpen(items, level)
  }

  /**
   * The nodes a flattening lists, in pre-order: every node of the tree
   * (`all`), or those that no closed directory hides.
   */
  function Nodes<V>(items: seq<Node<V>>, all: bool): seq<Node<V>> {
    if items == [] then []
    else [items[0]] + (if Descends(items[0], all) then Nodes(items[0].children, all) else []) + Nodes(items[1..], all)
  }

  function ValueOf<V>(x: FlatItem<V>): V { x.value }

  /** A flattening starts at the given level and steps down at most one level at a time. */
  predicate PreorderLevels<V>(f: seq<FlatItem<V>>, level: nat) {
    (forall k :: 0 <= k < |f| ==> f[k].level >= level) &&
    (|f| > 0 ==> f[0].level == level) &&
    (forall k :: 0 <= k < |f| - 1 ==> f[k + 1].level <= f[k].level + 1)
  }

  // ----------------------------------------------------------------- lookups

  /** `findItem` in `toggleSelection`: the first node in pre-order whose value is `target`. */
  function FindItem<V(==)>(items: seq<Node<V>>, target: V): Option<Node<V>> {
    if items == [] then None
    else if items[0].value == target then Some(items[0])
    else
      var inChildren := if items[0].Dir? then FindItem(items[0].children, target) else None;
      if inChildren.Some? then inChildren else FindItem(items[1..], target)
  }

  /** Linear search for the first node with value `target`. */
  function FirstNode<V(==)>(ns: seq<Node<V>>, target: V): Option<Node<V>> {
    if ns == [] then None
    else if ns[0].value == target then Some(ns[0])
    else FirstNode(ns[1..], target)
  }

  /**
   * `findAndToggle` in `toggleDirectory`: flip `open` on the first directory
   * in pre-order whose value is `target`; the flag says whether one was found.
   */
  function ToggleDir<V(==)>(items: seq<Node<V>>, target: V): (seq<Node<V>>, bool) {
    if items == [] then (items, false)
    else
      var n := items[0];
      if n.Dir? && n.value == target then
        ([n.(open := !n.open)] + items[1..], true)
      else if n.Dir? && ToggleDir(n.children, target).1 then
        ([n.(children := ToggleDir(n.children, target).0)] + items[1..], true)
      else
        var rest := ToggleDir(items[1..], target);
        ([n] + rest.0, rest.1)
  }

  /** The position of the first directory row with value `target`, or -1. */
  function FirstDirIndex<V(==)>(f: seq<FlatItem<V>>, target: V): (k: int)
    ensures -1 <= k < |f|
  {
    if f == [] then -1
    else if f[0].isDirectory && f[0].value == target then 0
    else
      var k := FirstDirIndex(f[1..], target);
      if k == -1 then -1 else k + 1
  }

  function FlipAt<V>(f: seq<FlatItem<V>>, k: int): seq<FlatItem<V>>
    requires -1 <= k < |f|
  {
    if k == -1 then f else f[k := f[k].(isOpen := !f[k].isOpen)]
  }

  // ------------------------------------------------------- expand / collapse

  /** `expandAll` (b = true) and `collapseAll` (b = false): set `open` on every directory. */
  function SetOpenAll<V>(items: seq<Node<V>>, b: bool): seq<Node<V>> {
    if items == [] then []
    else
      var n := items[0];
      (if n.Dir? then [n.(open := b, children := SetOpenAll(n.children, b))] else [n])
      + SetOpenAll(items[1..], b)
  }

  /** Every directory row with its open flag set to `b`; other rows as they are. */
  function SetDirRows<V>(f: seq<FlatItem<V>>, b: bool): (r: seq<FlatItem<V>>)
    ensures |r| == |f|
  {
    if f == [] then []
    else [if f[0].isDirectory then f[0].(isOpen := b) else f[0]] + SetDirRows(f[1..], b)
  }

  /** `areAllDirectoriesExpanded`: every directory, at every depth, is open. */
  predicate AllDirsExpanded<V>(items: seq<Node<V>>) {
    items == [] ||
    ((items[0].Dir? ==> items[0].open && AllDirsExpanded(items[0].children)) && AllDirsExpanded(items[1..]))
  }

  /** Every directory, at every depth, is closed. */
  predicate AllDirsCollapsed<V>(items: seq<Node<V>>) {
    items == [] ||
    ((items[0].Dir? ==> !items[0].open && AllDirsCollapsed(items[0].children)) && AllDirsCollapsed(items[1..]))
  }

  /** The tree part of `toggleExpandAll`. */
  function ToggleExpandAllTree<V>(items: seq<Node<V>>): seq<Node<V>> {
    if AllDirsExpanded(items) then SetOpenAll(items, false) else SetOpenAll(items, true)
  }

  /**
   * Two trees with the same values, names and directory structure, which may
   * differ only in their `open` flags.
   */
  ghost predicate SameSkeleton<V>(x: seq<Node<V>>, y: seq<Node<V>>) {
    |x| == |y| &&
    (x == [] ||
     (x[0].value == y[0].value && x[0].name == y[0].name && x[0].Dir? == y[0].Dir? &&
      (x[0].Dir? ==> SameSkeleton(x[0].children, y[0].children)) &&
      SameSkeleton(x[1..], y[1..])))
  }
}
