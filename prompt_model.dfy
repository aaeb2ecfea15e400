/**
 * The state of a tree-select prompt as a value, and the effect of one
 * keypress on it: the `key` handler (shortcuts and the search query) and the
 * `cursor` handler (moving, expanding, collapsing and selecting). The class
 * in module TreeSelect is proved to make exactly these steps.
 */
module PromptModel {
  import opened Wrappers
  import opened Seqs
  import opened Fuzzy
  import opened Tree
  import opened TreeFacts
  import opened Selection
  import opened Search

  /** The lifecycle states of a prompt that this model reads or writes. */
  datatype PromptState = Initial | Active | Submit | Cancel | Error

  /** A keypress as the terminal reports it; an absent name is the empty string. */
  datatype Key = Key(name: string, shift: bool, ctrl: bool, meta: bool)

  /** What a caller passes to the constructor; absent options are `None`. */
  datatype Options<V> = Options(
    tree: seq<RawItem<V>>,
    multiple: Option<bool>,
    searchable: Option<bool>,
    searchDirectoriesOnly: Option<bool>,
    initialValues: Option<seq<V>>)

  /** The options the handlers read, with their defaults applied. */
  datatype Config = Config(multiple: bool, searchable: bool, searchDirectoriesOnly: bool)

  /** Everything the handlers read and write. */
  datatype Snapshot<V> = Snapshot(
    tree: seq<Node<V>>,
    flatTree: seq<FlatItem<V>>,
    cursor: nat,
    value: seq<V>,
    searchQuery: string,
    isSearching: bool,
    state: PromptState)

  /** `opts.multiple ?? true`, `searchable ?? true`, `searchDirectoriesOnly ?? false`. */
  function ConfigOf<V>(opts: Options<V>): Config {
    Config(opts.multiple.GetOr(true), opts.searchable.GetOr(true), opts.searchDirectoriesOnly.GetOr(false))
  }

  /** The state the constructor leaves: normalised tree, its flat view, cursor on the first row. */
  function Start<V>(opts: Options<V>, show: V -> string): Snapshot<V> {
    var tree := NormalizeTree(opts.tree, show);
    Snapshot(tree, FlattenOpen(tree, 0), 0, opts.initialValues.GetOr([]), "", false, Initial)
  }

  /** A character the key handler appends to the query: visible ASCII (codes 33 to 126). */
  predicate QueryChar(c: char) {
    33 <= c as int <= 126
  }

  /**
   * The invariant the handlers keep: the flat tree is the expansion-aware
   * flattening of the tree, a search is on exactly when the query is not
   * empty, and the query holds only characters the key handler appends.
   * The rows take a node's own name for `name || String(value)`: the tree is
   * normalised when the prompt starts (NormalizedNamesSettled), and no step
   * changes a name afterwards (ToggleDirSkeleton, SetOpenAllSkeleton).
   */
  predicate Consistent<V(==)>(s: Snapshot<V>) {
    s.flatTree == FlattenOpen(s.tree, 0) &&
    (s.isSearching <==> s.searchQuery != []) &&
    forall k :: 0 <= k < |s.searchQuery| ==> QueryChar(s.searchQuery[k])
  }

  /** The rows `getVisibleFlatTree` returns in this state. */
  function Visible<V>(cfg: Config, s: Snapshot<V>): seq<FlatItem<V>> {
    VisibleView(s.flatTree, s.tree, s.searchQuery, cfg.searchDirectoriesOnly)
  }

  // ------------------------------------------------------- state transitions

  /** `toggleDirectory`: flip the first matching directory and rebuild only when there was one. */
  function ToggleDirectoryStep<V(==)>(s: Snapshot<V>, t: V): Snapshot<V> {
    var r := ToggleDir(s.tree, t);
    if r.1 then s.(tree := r.0, flatTree := FlattenOpen(r.0, 0)) else s
  }

  /** `toggleExpandAll`, followed by the rebuild `expandAll`/`collapseAll` do. */
  function ToggleExpandAllStep<V>(s: Snapshot<V>): Snapshot<V> {
    var tree := ToggleExpandAllTree(s.tree);
    s.(tree := tree, flatTree := FlattenOpen(tree, 0))
  }

  function ToggleSelectAllStep<V(==)>(cfg: Config, s: Snapshot<V>): Snapshot<V> {
    s.(value := ToggledAll(s.tree, s.value, cfg.multiple))
  }

  /** The key is Shift together with the named key. */
  predicate ShiftKey(key: Option<Key>, name: string) {
    key.Some? && key.value.shift && key.value.name == name
  }

  function KeyName(key: Option<Key>): string {
    if key.Some? then key.value.name else ""
  }

  /** The handler's test for a character to append: one character, neither Ctrl nor Meta held. */
  predicate TypedChar(ch: Option<string>, key: Option<Key>) {
    ch.Some? && |ch.value| == 1 && !(key.Some? && (key.value.ctrl || key.value.meta))
  }

  /**
   * The `key` handler. Shift+E toggles expand-all and Shift+A select-all;
   * everything else is ignored unless the prompt is searchable. Space never
   * reaches the query. Backspace drops the last query character while
   * searching. Escape clears an active search and undoes a cancellation.
   * A single non-whitespace ASCII character from code 32 to 126 without Ctrl or Meta
   * is appended to the query. Every query change puts the cursor on row 0.
   */
  function KeyStep<V(==)>(cfg: Config, s: Snapshot<V>, ch: Option<string>, key: Option<Key>): Snapshot<V> {
    var name := KeyName(key);
    if ShiftKey(key, "e") then ToggleExpandAllStep(s)
    else if ShiftKey(key, "a") then ToggleSelectAllStep(cfg, s)
    else if !cfg.searchable then s
    else if name == "space" then s
    else if name == "backspace" then
      if s.isSearching && |s.searchQuery| > 0 then
        var q := s.searchQuery[..|s.searchQuery| - 1];
        s.(searchQuery := q, isSearching := if q == [] then false else s.isSearching, cursor := 0)
      else s
    else if name == "escape" then
      if s.isSearching || |s.searchQuery| > 0 then
        s.(searchQuery := "", isSearching := false, cursor := 0,
           state := if s.state == Cancel then Active else s.state)
      else s
    else if TypedChar(ch, key) then
      var c := ch.value[0];
      if IsJsSpace(c) then s
      else if 32 <= c as int <= 126 then s.(isSearching := true, searchQuery := s.searchQuery + [c], cursor := 0)
      else s
    else s
  }

  /**
   * The `cursor` handler, for an active prompt and a non-empty key: up and
   * down move within the visible rows, right opens and left closes the
   * directory under the cursor, space toggles its selection (never a
   * directory's in single-selection mode). A cursor past the last visible
   * row points at nothing.
   */
  function CursorStep<V(==)>(cfg: Config, s: Snapshot<V>, key: string): Snapshot<V> {
    if s.state != Active || key == "" then s
    else
      var visible := Visible(cfg, s);
      var here := s.cursor < |visible|;
      if key == "up" then s.(cursor := if s.cursor == 0 then 0 else s.cursor - 1)
      else if key == "down" then
        s.(cursor := if s.cursor + 1 < |visible| then s.cursor + 1 else if |visible| == 0 then 0 else |visible| - 1)
      else if key == "right" then
        if here && visible[s.cursor].isDirectory && !visible[s.cursor].isOpen
        then ToggleDirectoryStep(s, visible[s.cursor].value) else s
      else if key == "left" then
        if here && visible[s.cursor].isDirectory && visible[s.cursor].isOpen
        then ToggleDirectoryStep(s, visible[s.cursor].value) else s
      else if key == "space" then
        if !here || (!cfg.multiple && visible[s.cursor].isDirectory) then s
        else s.(value := Toggled(s.tree, s.value, visible[s.cursor].value, cfg.multiple))
      else s
  }

  // ------------------------------------------------------------- invariant

  /** The constructor's state is consistent and starts outside search mode. */
  lemma StartConsistent<V>(opts: Options<V>, show: V -> string)
    ensures Consistent(Start(opts, show))
    ensures Visible(ConfigOf(opts), Start(opts, show)) == FlattenOpen(NormalizeTree(opts.tree, show), 0)
  {
  }

  /** A query made of query characters squashes to a string of the same length. */
  lemma {:induction false} QuerySquashLength(q: string)
    requires forall k :: 0 <= k < |q| ==> QueryChar(q[k])
    ensures |Squash(q)| == |q|
  {
    if q != [] {
      assert !IsJsSpace(q[0]);
      QuerySquashLength(q[1..]);
    }
  }

  /**
   * In a consistent state the visible rows are the flat tree exactly when no
   * search is on, and the search results over the whole tree when one is.
   */
  lemma VisibleFollowsSearch<V>(cfg: Config, s: Snapshot<V>)
    requires Consistent(s)
    ensures !s.isSearching ==> Visible(cfg, s) == FlattenOpen(s.tree, 0)
    ensures s.isSearching ==>
      Visible(cfg, s) == SearchFilter(FlattenAll(s.tree, 0), Squash(s.searchQuery), cfg.searchDirectoriesOnly)
  {
    QuerySquashLength(s.searchQuery);
  }

  /** Every visible row is a row of the full flattening. */
  lemma VisibleRowsInTree<V>(cfg: Config, s: Snapshot<V>)
    requires Consistent(s)
    ensures forall x :: x in Visible(cfg, s) ==> x in FlattenAll(s.tree, 0)
  {
    var visible := Visible(cfg, s);
    if Squash(s.searchQuery) == [] {
      FlattenOpenSubseq(s.tree, 0);
      SubseqMembers(FlattenOpen(s.tree, 0), FlattenAll(s.tree, 0));
    } else {
      var full := FlattenAll(s.tree, 0);
      assert visible == SearchFilter(full, Squash(s.searchQuery), cfg.searchDirectoriesOnly);
      forall x | x in visible ensures x in full {
        SearchFilterRow(full, Squash(s.searchQuery), cfg.searchDirectoriesOnly, x);
      }
    }
  }

  /** Dropping characters from the end of a query keeps it a query. */
  lemma QueryPrefix(q: string, n: nat)
    requires n <= |q| && forall k :: 0 <= k < |q| ==> QueryChar(q[k])
    ensures forall k :: 0 <= k < |q[..n]| ==> QueryChar(q[..n][k])
  {
  }

  /** Appending a query character keeps a query. */
  lemma QueryAppend(q: string, c: char)
    requires QueryChar(c) && forall k :: 0 <= k < |q| ==> QueryChar(q[k])
    ensures forall k :: 0 <= k < |q + [c]| ==> QueryChar((q + [c])[k])
  {
  }

  /** The key handler keeps the invariant. */
  lemma KeyKeepsConsistent<V>(cfg: Config, s: Snapshot<V>, ch: Option<string>, key: Option<Key>)
    requires Consistent(s)
    ensures Consistent(KeyStep(cfg, s, ch, key))
  {
    var name := KeyName(key);
    var q := s.searchQuery;
    if ShiftKey(key, "e") || ShiftKey(key, "a") || !cfg.searchable || name == "space" {
    } else if name == "backspace" {
      if s.isSearching && |q| > 0 {
        QueryPrefix(q, |q| - 1);
      }
    } else if name == "escape" {
    } else if TypedChar(ch, key) && !IsJsSpace(ch.value[0]) && 32 <= ch.value[0] as int <= 126 {
      QueryAppend(q, ch.value[0]);
    }
  }

  /** The cursor handler keeps the invariant. */
  lemma CursorKeepsConsistent<V>(cfg: Config, s: Snapshot<V>, key: string)
    requires Consistent(s)
    ensures Consistent(CursorStep(cfg, s, key))
  {
  }

  // ---------------------------------------------------------- key handler

  /**
   * Shift+E collapses everything when every directory is open and expands
   * everything otherwise; the tree keeps its values and structure, and
   * nothing but the tree and its flat view changes.
   */
  lemma ShiftEToggleExpand<V>(cfg: Config, s: Snapshot<V>, ch: Option<string>, key: Option<Key>)
    requires ShiftKey(key, "e") && Consistent(s)
    ensures var r := KeyStep(cfg, s, ch, key);
      (AllDirsExpanded(s.tree) ==> AllDirsCollapsed(r.tree)) &&
      (!AllDirsExpanded(s.tree) ==> AllDirsExpanded(r.tree) && r.flatTree == FlattenAll(r.tree, 0)) &&
      SameSkeleton(s.tree, r.tree) &&
      r.value == s.value && r.cursor == s.cursor && r.searchQuery == s.searchQuery &&
      r.isSearching == s.isSearching && r.state == s.state
  {
    var r := KeyStep(cfg, s, ch, key);
    ToggleExpandAllResult(s.tree);
    SetOpenAllSkeleton(s.tree, !AllDirsExpanded(s.tree));
    if !AllDirsExpanded(s.tree) {
      FlattenExpanded(r.tree, 0);
    }
  }

  /**
   * Shift+A in multi-selection mode flips "all selected" (an empty tree
   * stays all selected); in single-selection mode it does nothing. Only the
   * selection changes.
   */
  lemma ShiftAToggleSelect<V>(cfg: Config, s: Snapshot<V>, ch: Option<string>, key: Option<Key>)
    requires ShiftKey(key, "a") && !ShiftKey(key, "e")
    ensures var r := KeyStep(cfg, s, ch, key);
      (cfg.multiple ==> (AllSelected(r.tree, r.value, true) <==> !AllSelected(s.tree, s.value, true) || AllValues(s.tree) == [])) &&
      (!cfg.multiple ==> r == s) &&
      r == s.(value := r.value)
  {
    ToggleAllFlips(s.tree, s.value);
  }

  /**
   * The key handler keeps single selection too: Shift+A does nothing in
   * single-selection mode, Shift+E changes open flags only, and no other key
   * touches the tree or the selection.
   */
  lemma KeysKeepSingleSelection<V>(cfg: Config, s: Snapshot<V>, ch: Option<string>, key: Option<Key>)
    requires !cfg.multiple && |s.value| <= 1 && NoDirectories(s.tree, s.value)
    ensures var r := KeyStep(cfg, s, ch, key);
      |r.value| <= 1 && NoDirectories(r.tree, r.value)
  {
    var r := KeyStep(cfg, s, ch, key);
    if ShiftKey(key, "e") {
      SetOpenAllSkeleton(s.tree, !AllDirsExpanded(s.tree));
      assert r.tree == SetOpenAll(s.tree, !AllDirsExpanded(s.tree)) && r.value == s.value;
      forall v | v in r.value ensures !IsDirValue(r.tree, v) {
        SkeletonFindItem(s.tree, r.tree, v);
      }
    } else if !ShiftKey(key, "a") {
      KeysLeaveTreeAndSelection(cfg, s, ch, key);
    }
  }

  /** Apart from the two shortcuts, the key handler never changes the tree or the selection. */
  lemma KeysLeaveTreeAndSelection<V>(cfg: Config, s: Snapshot<V>, ch: Option<string>, key: Option<Key>)
    ensures var r := KeyStep(cfg, s, ch, key);
      (!ShiftKey(key, "e") ==> r.tree == s.tree && r.flatTree == s.flatTree) &&
      (!ShiftKey(key, "e") && !ShiftKey(key, "a") ==> r.value == s.value)
  {
  }

  /** A prompt that is not searchable ignores every key but the two shortcuts. */
  lemma NotSearchableIgnoresKeys<V>(cfg: Config, s: Snapshot<V>, ch: Option<string>, key: Option<Key>)
    requires !cfg.searchable && !ShiftKey(key, "e") && !ShiftKey(key, "a")
    ensures KeyStep(cfg, s, ch, key) == s
  {
  }

  /** Neither the space key nor a typed space starts or extends a search. */
  lemma SpaceNeverSearches<V>(cfg: Config, s: Snapshot<V>, ch: Option<string>, key: Option<Key>)
    requires KeyName(key) == "space" || (ch == Some(" ") && KeyName(key) != "backspace" && KeyName(key) != "escape")
    ensures KeyStep(cfg, s, ch, key).searchQuery == s.searchQuery
  {
    assert IsJsSpace(" "[0]);
  }

  /** A plain key press with no special name, in a searchable prompt. */
  predicate PlainTyping(cfg: Config, ch: Option<string>, key: Option<Key>) {
    cfg.searchable && !ShiftKey(key, "e") && !ShiftKey(key, "a") &&
    KeyName(key) != "space" && KeyName(key) != "backspace" && KeyName(key) != "escape" &&
    TypedChar(ch, key)
  }

  /**
   * Typing a visible ASCII character appends it to the query, turns search on
   * and moves the cursor to the first row; any other character, and
   * whitespace, changes nothing.
   */
  lemma TypingAppends<V>(cfg: Config, s: Snapshot<V>, ch: Option<string>, key: Option<Key>)
    requires PlainTyping(cfg, ch, key)
    ensures var r := KeyStep(cfg, s, ch, key);
      (QueryChar(ch.value[0]) ==> r == s.(isSearching := true, searchQuery := s.searchQuery + ch.value, cursor := 0)) &&
      (!QueryChar(ch.value[0]) ==> r == s)
  {
    assert ch.value == [ch.value[0]];
  }

  /**
   * Backspace in any state: while searching with a non-empty query it drops
   * the query's last character, stays in search mode exactly when something
   * is left and moves the cursor to the first row; otherwise it changes
   * nothing.
   */
  lemma BackspaceDropsLast<V>(cfg: Config, s: Snapshot<V>, ch: Option<string>, key: Option<Key>)
    requires cfg.searchable && KeyName(key) == "backspace" && !ShiftKey(key, "e") && !ShiftKey(key, "a")
    ensures var r := KeyStep(cfg, s, ch, key);
      (s.isSearching && s.searchQuery != [] ==>
        r == s.(searchQuery := r.searchQuery, isSearching := r.isSearching, cursor := 0) &&
        r.searchQuery + [s.searchQuery[|s.searchQuery| - 1]] == s.searchQuery &&
        (r.isSearching <==> r.searchQuery != [])) &&
      (!(s.isSearching && s.searchQuery != []) ==> r == s)
  {
    if s.isSearching && s.searchQuery != [] {
      var q := s.searchQuery;
      assert q[..|q| - 1] + [q[|q| - 1]] == q;
    }
  }

  /** Backspace right after typing a character gives back the query and the search flag. */
  lemma BackspaceUndoesTyping<V>(cfg: Config, s: Snapshot<V>, ch: Option<string>, key: Option<Key>, bs: Key)
    requires Consistent(s) && PlainTyping(cfg, ch, key) && QueryChar(ch.value[0])
    requires bs.name == "backspace" && !bs.shift
    ensures var r := KeyStep(cfg, KeyStep(cfg, s, ch, key), None, Some(bs));
      r == s.(cursor := 0)
  {
    TypingAppends(cfg, s, ch, key);
    var t := KeyStep(cfg, s, ch, key);
    assert t.searchQuery[..|t.searchQuery| - 1] == s.searchQuery;
  }

  /**
   * Escape during a search clears the query, leaves search mode, moves the
   * cursor to the first row and turns a cancellation back into an active
   * prompt; outside a search it changes nothing, so a cancellation stands.
   */
  lemma EscapeLeavesSearch<V>(cfg: Config, s: Snapshot<V>, ch: Option<string>, key: Option<Key>)
    requires cfg.searchable && KeyName(key) == "escape" && !ShiftKey(key, "e") && !ShiftKey(key, "a")
    requires Consistent(s)
    ensures var r := KeyStep(cfg, s, ch, key);
      (s.isSearching ==>
        r.searchQuery == [] && !r.isSearching && r.cursor == 0 &&
        r.state == (if s.state == Cancel then Active else s.state) &&
        Visible(cfg, r) == s.flatTree) &&
      (!s.isSearching ==> r == s)
  {
  }

  // -------------------------------------------------------- cursor handler

  /** An inactive prompt, or a missing key, ignores cursor events. */
  lemma CursorNeedsActive<V>(cfg: Config, s: Snapshot<V>, key: string)
    requires s.state != Active || key == ""
    ensures CursorStep(cfg, s, key) == s
  {
  }

  /** The cursor handler never touches the search or the lifecycle state. */
  lemma CursorKeepsSearch<V>(cfg: Config, s: Snapshot<V>, key: string)
    ensures var r := CursorStep(cfg, s, key);
      r.searchQuery == s.searchQuery && r.isSearching == s.isSearching && r.state == s.state
  {
  }

  /**
   * Down moves to the next row but never past the last visible one (row 0
   * when there are none): the smaller of the next row and the last row. Up
   * never goes above row 0.
   */
  lemma CursorStaysInView<V>(cfg: Config, s: Snapshot<V>)
    requires s.state == Active
    ensures var r := CursorStep(cfg, s, "down");
      var last := if |Visible(cfg, s)| == 0 then 0 else |Visible(cfg, s)| - 1;
      r == s.(cursor := r.cursor) && (r.cursor < |Visible(cfg, s)| || (|Visible(cfg, s)| == 0 && r.cursor == 0)) &&
      r.cursor <= s.cursor + 1 && r.cursor <= last && (r.cursor == s.cursor + 1 || r.cursor == last)
    ensures var r := CursorStep(cfg, s, "up");
      r == s.(cursor := r.cursor) && r.cursor <= s.cursor && (s.cursor > 0 ==> r.cursor == s.cursor - 1)
  {
  }

  /** Inside the visible rows, up and down undo each other. */
  lemma UpDownRoundTrip<V>(cfg: Config, s: Snapshot<V>)
    requires s.state == Active
    ensures 0 < s.cursor < |Visible(cfg, s)| ==> CursorStep(cfg, CursorStep(cfg, s, "up"), "down") == s
    ensures s.cursor + 1 < |Visible(cfg, s)| ==> CursorStep(cfg, CursorStep(cfg, s, "down"), "up") == s
  {
  }

  /**
   * Right on a closed directory row (left on an open one) flips exactly one
   * row of the full flattening: the first directory row with that value. It
   * changes open flags only, and nothing outside the tree and its flat view.
   */
  lemma RightLeftToggleDirectory<V>(cfg: Config, s: Snapshot<V>, key: string)
    requires Consistent(s) && s.state == Active && (key == "right" || key == "left")
    requires s.cursor < |Visible(cfg, s)|
    requires Visible(cfg, s)[s.cursor].isDirectory
    requires Visible(cfg, s)[s.cursor].isOpen <==> key == "left"
    ensures var r := CursorStep(cfg, s, key);
      var t := Visible(cfg, s)[s.cursor].value;
      var full := FlattenAll(s.tree, 0);
      FirstDirIndex(full, t) != -1 &&
      FlattenAll(r.tree, 0) == FlipAt(full, FirstDirIndex(full, t)) &&
      SameSkeleton(s.tree, r.tree) &&
      r == s.(tree := r.tree, flatTree := r.flatTree) && Consistent(r)
  {
    var x := Visible(cfg, s)[s.cursor];
    assert CursorStep(cfg, s, key) == ToggleDirectoryStep(s, x.value);
    VisibleRowsInTree(cfg, s);
    FirstDirIndexFound(FlattenAll(s.tree, 0), x);
    ToggleDirectoryFlips(s, x.value);
  }

  /** `toggleDirectory` on a value that has a directory row flips that row only. */
  lemma ToggleDirectoryFlips<V>(s: Snapshot<V>, t: V)
    requires Consistent(s) && FirstDirIndex(FlattenAll(s.tree, 0), t) != -1
    ensures var r := ToggleDirectoryStep(s, t);
      var full := FlattenAll(s.tree, 0);
      FlattenAll(r.tree, 0) == FlipAt(full, FirstDirIndex(full, t)) &&
      SameSkeleton(s.tree, r.tree) &&
      r == s.(tree := r.tree, flatTree := r.flatTree) && Consistent(r)
  {
    ToggleDirSpec(s.tree, t, 0);
    ToggleDirSkeleton(s.tree, t);
  }

  /** Right and left on any other row change nothing. */
  lemma RightLeftElsewhere<V>(cfg: Config, s: Snapshot<V>, key: string)
    requires key == "right" || key == "left"
    requires s.cursor >= |Visible(cfg, s)| || !Visible(cfg, s)[s.cursor].isDirectory ||
             (Visible(cfg, s)[s.cursor].isOpen <==> key == "right")
    ensures CursorStep(cfg, s, key) == s
  {
  }

  /**
   * Space toggles the selection of the row under the cursor (with the
   * cascade of `toggleSelection`) and changes nothing else; in
   * single-selection mode a directory row is left alone.
   */
  lemma SpaceTogglesSelection<V>(cfg: Config, s: Snapshot<V>)
    requires s.state == Active && s.cursor < |Visible(cfg, s)|
    ensures var r := CursorStep(cfg, s, "space");
      var x := Visible(cfg, s)[s.cursor];
      r == s.(value := r.value) &&
      (!cfg.multiple && x.isDirectory ==> r.value == s.value) &&
      (cfg.multiple || !x.isDirectory ==> r.value == Toggled(s.tree, s.value, x.value, cfg.multiple))
  {
  }

  /**
   * In single-selection mode no cursor event can select a second value or a
   * directory.
   */
  lemma SingleSelectionStaysSingle<V>(cfg: Config, s: Snapshot<V>, key: string)
    requires !cfg.multiple && |s.value| <= 1 && NoDirectories(s.tree, s.value)
    ensures var r := CursorStep(cfg, s, key);
      |r.value| <= 1 && NoDirectories(r.tree, r.value)
  {
    var r := CursorStep(cfg, s, key);
    if s.state == Active && key != "" {
      var visible := Visible(cfg, s);
      if key == "space" && s.cursor < |visible| && !visible[s.cursor].isDirectory {
        SingleSelectionKept(s.tree, s.value, visible[s.cursor].value);
      } else if (key == "right" || key == "left") && r != s {
        ToggleDirSkeleton(s.tree, visible[s.cursor].value);
        forall v | v in s.value ensures !IsDirValue(r.tree, v) {
          SkeletonFindItem(s.tree, r.tree, v);
        }
      }
    }
  }
}
