/**
 * The list of rows the prompt shows: the expansion-aware flattening while no
 * search is active, and otherwise every row of the whole tree whose name the
 * query matches (only directory rows when directory-only search is on).
 */
module Search {
  import opened Seqs
  import opened Fuzzy
  import opened Tree
  import opened TreeFacts

  /** The filter predicate of `getVisibleFlatTree`, for an already squashed query. */
  predicate Shown<V>(it: FlatItem<V>, q: string, dirsOnly: bool) {
    (!dirsOnly || it.isDirectory) && FuzzyMatch(it.name, q)
  }

  /** `Array.prototype.filter` with `Shown`. */
  function SearchFilter<V>(f: seq<FlatItem<V>>, q: string, dirsOnly: bool): seq<FlatItem<V>> {
    if f == [] then []
    else (if Shown(f[0], q, dirsOnly) then [f[0]] else []) + SearchFilter(f[1..], q, dirsOnly)
  }

  /**
   * `getVisibleFlatTree`: the query is squashed first; an empty result means
   * no search, and the prompt's flat tree is shown as it is.
   */
  function VisibleView<V>(flat: seq<FlatItem<V>>, tree: seq<Node<V>>, query: string, dirsOnly: bool): seq<FlatItem<V>> {
    var q := Squash(query);
    if q == [] then flat else SearchFilter(FlattenAll(tree, 0), q, dirsOnly)
  }

  /** The filter keeps exactly the shown rows, in their order, with every copy of each. */
  lemma SearchFilterSpec<V>(f: seq<FlatItem<V>>, q: string, dirsOnly: bool)
    ensures Subseq(SearchFilter(f, q, dirsOnly), f)
    ensures forall x :: x in SearchFilter(f, q, dirsOnly) <==> x in f && Shown(x, q, dirsOnly)
    ensures forall y :: multiset(SearchFilter(f, q, dirsOnly))[y] == if Shown(y, q, dirsOnly) then multiset(f)[y] else 0
  {
    SearchFilterOrder(f, q, dirsOnly);
    forall y
      ensures multiset(SearchFilter(f, q, dirsOnly))[y] == if Shown(y, q, dirsOnly) then multiset(f)[y] else 0
    {
      SearchFilterCountOf(f, q, dirsOnly, y);
    }
    forall x
      ensures x in SearchFilter(f, q, dirsOnly) <==> x in f && Shown(x, q, dirsOnly)
    {
      SearchFilterCountOf(f, q, dirsOnly, x);
      assert x in SearchFilter(f, q, dirsOnly) <==> multiset(SearchFilter(f, q, dirsOnly))[x] > 0;
      assert x in f <==> multiset(f)[x] > 0;
    }
  }

  /** The filter's rows occur in the input in order. */
  lemma {:induction false} SearchFilterOrder<V>(f: seq<FlatItem<V>>, q: string, dirsOnly: bool)
    ensures Subseq(SearchFilter(f, q, dirsOnly), f)
  {
    if f != [] {
      SearchFilterOrder(f[1..], q, dirsOnly);
      var rest := SearchFilter(f[1..], q, dirsOnly);
      if Shown(f[0], q, dirsOnly) {
        assert SearchFilter(f, q, dirsOnly) == [f[0]] + rest;
        assert ([f[0]] + rest)[1..] == rest;
      } else {
        assert SearchFilter(f, q, dirsOnly) == rest;
        SubseqPrepend(rest, f[1..], [f[0]]);
        assert [f[0]] + f[1..] == f;
      }
    }
  }

  /** How many copies of `y` the filter keeps: all of them when `y` is shown, none otherwise. */
  lemma {:induction false} SearchFilterCountOf<V>(f: seq<FlatItem<V>>, q: string, dirsOnly: bool, y: FlatItem<V>)
    ensures multiset(SearchFilter(f, q, dirsOnly))[y] == if Shown(y, q, dirsOnly) then multiset(f)[y] else 0
  {
    if f != [] {
      SearchFilterCountOf(f[1..], q, dirsOnly, y);
      FilterCountStep(f, SearchFilter(f, q, dirsOnly), SearchFilter(f[1..], q, dirsOnly),
                      Shown(f[0], q, dirsOnly), Shown(y, q, dirsOnly), y);
    }
  }

  /** One row of the filter's result, seen from the rows it came from. */
  lemma SearchFilterRow<V>(f: seq<FlatItem<V>>, q: string, dirsOnly: bool, x: FlatItem<V>)
    requires x in SearchFilter(f, q, dirsOnly)
    ensures x in f && Shown(x, q, dirsOnly)
  {
    SearchFilterSpec(f, q, dirsOnly);
  }

  lemma {:induction false} SearchFilterConcat<V>(a: seq<FlatItem<V>>, b: seq<FlatItem<V>>, q: string, dirsOnly: bool)
    ensures SearchFilter(a + b, q, dirsOnly) == SearchFilter(a, q, dirsOnly) + SearchFilter(b, q, dirsOnly)
  {
    if a == [] {
      assert a + b == b;
    } else {
      assert (a + b)[0] == a[0];
      assert (a + b)[1..] == a[1..] + b;
      SearchFilterConcat(a[1..], b, q, dirsOnly);
    }
  }

  /** With an empty (or all-whitespace) query the view is the prompt's flat tree. */
  lemma NoSearchShowsFlatTree<V>(flat: seq<FlatItem<V>>, tree: seq<Node<V>>, query: string, dirsOnly: bool)
    requires Squash(query) == []
    ensures VisibleView(flat, tree, query, dirsOnly) == flat
  {
  }

  /**
   * The view depends on the query only through its squashed form: a query
   * that is already squashed shows the same rows as the raw one.
   */
  lemma SquashedQuerySameView<V>(flat: seq<FlatItem<V>>, tree: seq<Node<V>>, query: string, dirsOnly: bool)
    ensures VisibleView(flat, tree, Squash(query), dirsOnly) == VisibleView(flat, tree, query, dirsOnly)
  {
    SquashIdempotent(query);
  }

  /**
   * While searching, the view ignores expansion: it lists, in pre-order,
   * exactly the rows of the whole tree that the query matches, each as many
   * times as the whole tree has it.
   */
  lemma SearchShowsMatches<V>(flat: seq<FlatItem<V>>, tree: seq<Node<V>>, query: string, dirsOnly: bool)
    requires Squash(query) != []
    ensures Subseq(VisibleView(flat, tree, query, dirsOnly), FlattenAll(tree, 0))
    ensures forall x :: x in VisibleView(flat, tree, query, dirsOnly) <==>
      x in FlattenAll(tree, 0) && (!dirsOnly || x.isDirectory) && FuzzyMatch(x.name, Squash(query))
    ensures forall y :: multiset(VisibleView(flat, tree, query, dirsOnly))[y] ==
                        if Shown(y, Squash(query), dirsOnly) then multiset(FlattenAll(tree, 0))[y] else 0
  {
    SearchFilterSpec(FlattenAll(tree, 0), Squash(query), dirsOnly);
  }

  /** Directory-only search never shows a file row. */
  lemma DirectoryOnlySearch<V>(flat: seq<FlatItem<V>>, tree: seq<Node<V>>, query: string)
    requires Squash(query) != []
    ensures forall x :: x in VisibleView(flat, tree, query, true) ==> x.isDirectory
  {
    var view := SearchFilter(FlattenAll(tree, 0), Squash(query), true);
    assert VisibleView(flat, tree, query, true) == view;
    forall x | x in view ensures x.isDirectory {
      SearchFilterRow(FlattenAll(tree, 0), Squash(query), true, x);
    }
  }

  /**
   * A row of the tree whose squashed name contains the squashed query as a
   * contiguous piece is always shown, whether or not its directory is open.
   */
  lemma SubstringIsShown<V>(flat: seq<FlatItem<V>>, tree: seq<Node<V>>, query: string, dirsOnly: bool,
                            x: FlatItem<V>, i: nat, j: nat)
    requires Squash(query) != [] && x in FlattenAll(tree, 0) && (!dirsOnly || x.isDirectory)
    requires i <= j <= |Squash(x.name)| && Squash(x.name)[i..j] == Squash(query)
    ensures x in VisibleView(flat, tree, query, dirsOnly)
  {
    SubstringMatches(x.name, i, j);
    SearchShowsMatches(flat, tree, query, dirsOnly);
  }

  /** The view's rows carry the values of the matched nodes, in the tree's pre-order. */
  lemma SearchValuesInOrder<V>(flat: seq<FlatItem<V>>, tree: seq<Node<V>>, query: string, dirsOnly: bool)
    requires Squash(query) != []
    ensures Subseq(MapSeq(ValueOf, VisibleView(flat, tree, query, dirsOnly)), AllValues(tree))
  {
    SearchShowsMatches(flat, tree, query, dirsOnly);
    SubseqMap(ValueOf, VisibleView(flat, tree, query, dirsOnly), FlattenAll(tree, 0));
    FlattenAllValues(tree, 0);
  }
}
