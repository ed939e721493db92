/** Repair on read: sibling lists fetched from the store are sorted by their
    stored `ordering` and every element whose ordering differs from its
    position is patched to its position, with one pending write per patch
    (cmsRoute.js, `sorter`, `flatSort`, `bubbleSortSelectors`). The store's
    `update` calls are not awaited by the source; here they are returned as a
    list of pending writes. */
module Repair {

  /** A sibling row as read: its id and its stored ordering. */
  datatype Node = Node(id: int, ordering: int)

  /** The join row of a section and a selector, which carries the ordering. */
  datatype JoinRow = JoinRow(id: int, ordering: int)

  /** A selector as read through its section: its own copy of the ordering
      (the shadow field) and the join row. */
  datatype SelectorNode = SelectorNode(id: int, ordering: int, join: JoinRow)

  /** A pending `update({ordering}, {where: {id}})`. */
  datatype Write = Write(id: int, ordering: int)

  // ---------------------------------------------------------------------------
  // Sorting by a key (the comparator `sorter` reads `ordering`)

  /** `s` is in ascending order of `key`; nothing is said about equal keys. */
  ghost predicate SortedBy<T>(s: seq<T>, key: T -> int)
  {
    forall i, j :: 0 <= i < j < |s| ==> key(s[i]) <= key(s[j])
  }

  /** `t` is `s` rearranged into ascending order of `key`. */
  ghost predicate IsSortedPermutation<T>(t: seq<T>, s: seq<T>, key: T -> int)
  {
    multiset(t) == multiset(s) && SortedBy(t, key)
  }

  function NodeOrdering(n: Node): int { n.ordering }

  function SelectorOrdering(s: SelectorNode): int { s.ordering }

  /** `array.sort(sorter)`: an in-place sort by key. The source leaves the order
      of equal keys to the runtime, so only sortedness and the permutation are
      promised. */
  method SortBy<T>(a: array<T>, key: T -> int)
    modifies a
    ensures IsSortedPermutation(a[..], old(a[..]), key)
  {
    var i := 0;
    while i < a.Length
      invariant 0 <= i <= a.Length
      invariant forall p, q :: 0 <= p < q < i ==> key(a[p]) <= key(a[q])
      invariant multiset(a[..]) == old(multiset(a[..]))
    {
      SinkInto(a, i, key);
      i := i + 1;
    }
  }

  /** One insertion step: `a[..i]` is sorted; move `a[i]` down to its place. */
  method SinkInto<T>(a: array<T>, i: nat, key: T -> int)
    requires i < a.Length
    requires forall p, q :: 0 <= p < q < i ==> key(a[p]) <= key(a[q])
    modifies a
    ensures forall p, q :: 0 <= p < q <= i ==> key(a[p]) <= key(a[q])
    ensures multiset(a[..]) == old(multiset(a[..]))
  {
    var j := i;
    while 0 < j && key(a[j]) < key(a[j - 1])
      invariant 0 <= j <= i
      invariant forall p, q :: 0 <= p < q <= i && p != j && q != j ==> key(a[p]) <= key(a[q])
      invariant forall q :: j < q <= i ==> key(a[j]) < key(a[q])
      invariant multiset(a[..]) == old(multiset(a[..]))
    {
      Exchange(a, j - 1, j);
      j := j - 1;
    }
  }

  /** Exchange two neighbouring elements. */
  method Exchange<T>(a: array<T>, i: nat, j: nat)
    requires i < j < a.Length
    modifies a
    ensures a[i] == old(a[j]) && a[j] == old(a[i])
    ensures forall k :: 0 <= k < a.Length && k != i && k != j ==> a[k] == old(a[k])
    ensures multiset(a[..]) == old(multiset(a[..]))
  {
    a[i], a[j] := a[j], a[i];
  }

  // ---------------------------------------------------------------------------
  // The repair pass

  /** Every row of `s` with its ordering set to its position. */
  function Renumbered(s: seq<Node>): (r: seq<Node>)
    ensures |r| == |s|
  {
    seq(|s|, i requires 0 <= i < |s| => s[i].(ordering := i))
  }

  /** Every selector of `s` with its shadow copy and its join row's ordering
      both set to its position. */
  function RenumberedSelectors(s: seq<SelectorNode>): (r: seq<SelectorNode>)
    ensures |r| == |s|
  {
    seq(|s|, i requires 0 <= i < |s| => Placed(s[i], i))
  }

  /** A selector patched to position `i`, on both copies of its ordering. */
  function Placed(s: SelectorNode, i: int): SelectorNode
  {
    s.(ordering := i, join := s.join.(ordering := i))
  }

  function NodeId(n: Node): int { n.id }

  function JoinId(s: SelectorNode): int { s.join.id }

  /** The writes the repair pass issues from position `i` on: one, addressed by
      `target`, for every element whose key differs from its position. */
  function RepairWritesFrom<T>(s: seq<T>, key: T -> int, target: T -> int, i: nat): seq<Write>
    decreases |s| - i
  {
    if i >= |s| then []
    else (if key(s[i]) != i then [Write(target(s[i]), i)] else []) + RepairWritesFrom(s, key, target, i + 1)
  }

  /** Peeling one position off the pending writes. */
  lemma RepairWritesStep<T>(s: seq<T>, key: T -> int, target: T -> int, i: nat, done: seq<Write>)
    requires i < |s|
    ensures done + RepairWritesFrom(s, key, target, i) ==
      (done + if key(s[i]) != i then [Write(target(s[i]), i)] else []) + RepairWritesFrom(s, key, target, i + 1)
  {
  }

  function RepairWrites<T>(s: seq<T>, key: T -> int, target: T -> int): seq<Write>
  {
    RepairWritesFrom(s, key, target, 0)
  }

  /** Every element of `s` sits at the position its key names. */
  ghost predicate DenseByPosition<T>(s: seq<T>, key: T -> int)
  {
    forall i :: 0 <= i < |s| ==> key(s[i]) == i
  }

  /** `flatSort(conn, array)`: a null list gives `[]` and no writes; otherwise
      the array is sorted in place by ordering and each element whose ordering
      differs from its position is patched, with one write per patch. */
  method FlatSort(a: array?<Node>) returns (result: seq<Node>, writes: seq<Write>, ghost sorted: seq<Node>)
    modifies a
    ensures a == null ==> result == [] && writes == []
    ensures a != null ==> result == a[..]
    ensures a != null ==> IsSortedPermutation(sorted, old(a[..]), NodeOrdering)
    ensures a != null ==> a[..] == Renumbered(sorted)
    ensures a != null ==> writes == RepairWrites(sorted, NodeOrdering, NodeId)
  {
    if a == null {
      return [], [], [];
    }
    SortBy(a, NodeOrdering);
    sorted := a[..];
    writes := PlaceNodes(a);
    result := a[..];
  }

  /** The patch loop of `flatSort`: each row whose ordering differs from its
      position gets its position, and a write is issued for it. */
  method PlaceNodes(a: array<Node>) returns (writes: seq<Write>)
    modifies a
    ensures a[..] == Renumbered(old(a[..]))
    ensures writes == RepairWrites(old(a[..]), NodeOrdering, NodeId)
  {
    ghost var sorted := a[..];
    writes := [];
    var i := 0;
    while i < a.Length
      invariant 0 <= i <= a.Length
      invariant forall k :: 0 <= k < i ==> a[k] == sorted[k].(ordering := k)
      invariant forall k :: i <= k < a.Length ==> a[k] == sorted[k]
      invariant writes + RepairWritesFrom(sorted, NodeOrdering, NodeId, i) == RepairWrites(sorted, NodeOrdering, NodeId)
    {
      RepairWritesStep(sorted, NodeOrdering, NodeId, i, writes);
      if a[i].ordering != i {
        writes := writes + [Write(a[i].id, i)];
        a[i] := a[i].(ordering := i);
      }
      i := i + 1;
    }
    assert writes == writes + RepairWritesFrom(sorted, NodeOrdering, NodeId, i);
  }

  /** The patch loop of `bubbleSortSelectors`: both copies of each selector's
      ordering get its position, and the write goes to the join row. */
  method PlaceSelectors(a: array<SelectorNode>) returns (writes: seq<Write>)
    requires ShadowsJoin(a[..])
    modifies a
    ensures a[..] == RenumberedSelectors(old(a[..]))
    ensures writes == RepairWrites(old(a[..]), SelectorOrdering, JoinId)
  {
    ghost var sorted := a[..];
    writes := [];
    var i := 0;
    while i < a.Length
      invariant 0 <= i <= a.Length
      invariant forall k :: 0 <= k < i ==> a[k] == Placed(sorted[k], k)
      invariant forall k :: i <= k < a.Length ==> a[k] == sorted[k]
      invariant writes + RepairWritesFrom(sorted, SelectorOrdering, JoinId, i) == RepairWrites(sorted, SelectorOrdering, JoinId)
    {
      RepairWritesStep(sorted, SelectorOrdering, JoinId, i, writes);
      assert a[i] == sorted[i] && sorted[i].ordering == sorted[i].join.ordering;
      if a[i].ordering != i {
        writes := writes + [Write(a[i].join.id, i)];
        a[i] := Placed(a[i], i);
      }
      i := i + 1;
    }
    assert writes == writes + RepairWritesFrom(sorted, SelectorOrdering, JoinId, i);
  }

  /** The selector list after `map(s => ({...s, ordering: s.section_selector.ordering}))`. */
  function WithJoinOrdering(selectors: seq<SelectorNode>): (r: seq<SelectorNode>)
    ensures |r| == |selectors|
  {
    seq(|selectors|, i requires 0 <= i < |selectors| => selectors[i].(ordering := selectors[i].join.ordering))
  }

  /** Each shadow copy equals its join row's ordering. */
  ghost predicate ShadowsJoin(s: seq<SelectorNode>)
  {
    forall i :: 0 <= i < |s| ==> s[i].ordering == s[i].join.ordering
  }

  lemma ShadowsJoinPermutation(s: seq<SelectorNode>, t: seq<SelectorNode>)
    requires ShadowsJoin(s) && multiset(t) == multiset(s)
    ensures ShadowsJoin(t)
  {
    forall i | 0 <= i < |t| ensures t[i].ordering == t[i].join.ordering {
      assert t[i] in multiset(t);
    }
  }

  /** `bubbleSortSelectors(conn, selectors)`: the shadow copies take the join
      row's ordering, are sorted by it, and each one out of place is patched on
      both copies, with the write addressed to the join row. */
  method BubbleSortSelectors(selectors: seq<SelectorNode>)
    returns (result: seq<SelectorNode>, writes: seq<Write>, ghost sorted: seq<SelectorNode>)
    ensures IsSortedPermutation(sorted, WithJoinOrdering(selectors), SelectorOrdering)
    ensures result == RenumberedSelectors(sorted)
    ensures writes == RepairWrites(sorted, SelectorOrdering, JoinId)
    ensures |result| == |selectors|
    ensures forall i :: 0 <= i < |result| ==> result[i].ordering == i && result[i].join.ordering == i
  {
    var a := new SelectorNode[|selectors|](i requires 0 <= i < |selectors| =>
      selectors[i].(ordering := selectors[i].join.ordering));
    assert a[..] == WithJoinOrdering(selectors);
    SortBy(a, SelectorOrdering);
    sorted := a[..];
    ShadowsJoinPermutation(WithJoinOrdering(selectors), sorted);
    writes := PlaceSelectors(a);
    result := a[..];
  }

  // ---------------------------------------------------------------------------
  // What the repair pass promises

  /** A write is issued for exactly the elements whose key differs from their
      position, each addressed by `target` and carrying the position. */
  lemma {:induction false} RepairWritesFromExact<T>(s: seq<T>, key: T -> int, target: T -> int, i: nat)
    ensures forall k :: i <= k < |s| && key(s[k]) != k ==> Write(target(s[k]), k) in RepairWritesFrom(s, key, target, i)
    ensures forall w :: w in RepairWritesFrom(s, key, target, i) ==>
      exists k :: i <= k < |s| && key(s[k]) != k && w == Write(target(s[k]), k)
    ensures RepairWritesFrom(s, key, target, i) == [] <==> forall k :: i <= k < |s| ==> key(s[k]) == k
    decreases |s| - i
  {
    if i < |s| {
      RepairWritesFromExact(s, key, target, i + 1);
    }
  }

  lemma RepairWritesExact<T>(s: seq<T>, key: T -> int, target: T -> int)
    ensures forall k :: 0 <= k < |s| && key(s[k]) != k ==> Write(target(s[k]), k) in RepairWrites(s, key, target)
    ensures forall w :: w in RepairWrites(s, key, target) ==>
      exists k :: 0 <= k < |s| && key(s[k]) != k && w == Write(target(s[k]), k)
    ensures RepairWrites(s, key, target) == [] <==> DenseByPosition(s, key)
  {
    RepairWritesFromExact(s, key, target, 0);
  }

  /** In a list whose orderings are its positions, a row's ordering says where
      it is. */
  lemma DenseMember(s: seq<Node>, x: Node)
    requires DenseByPosition(s, NodeOrdering) && x in multiset(s)
    ensures 0 <= x.ordering < |s| && s[x.ordering] == x
  {
    assert x in s;
    var k :| 0 <= k < |s| && s[k] == x;
    assert NodeOrdering(s[k]) == k;
  }

  /** Under the hypotheses below, the last row of `t` is the last row of `s`. */
  lemma SortedDenseLast(s: seq<Node>, t: seq<Node>)
    requires DenseByPosition(s, NodeOrdering)
    requires IsSortedPermutation(t, s, NodeOrdering)
    requires |s| > 0
    ensures |t| == |s| && t[|s| - 1] == s[|s| - 1]
  {
    assert |t| == |multiset(t)| == |multiset(s)| == |s|;
    var n := |s| - 1;
    assert t[n] in multiset(t);
    DenseMember(s, t[n]);
    assert s[n] in multiset(t);
    var q :| 0 <= q < |t| && t[q] == s[n];
    assert NodeOrdering(s[n]) == n;
    assert q < n ==> NodeOrdering(t[q]) <= NodeOrdering(t[n]);
  }

  /** Two lists with the same elements and the same last element agree on the
      rest. */
  lemma MultisetDropLast<T>(s: seq<T>, t: seq<T>)
    requires multiset(s) == multiset(t) && |s| == |t| > 0 && s[|s| - 1] == t[|t| - 1]
    ensures multiset(s[..|s| - 1]) == multiset(t[..|t| - 1])
  {
    var n := |s| - 1;
    assert s == s[..n] + [s[n]];
    assert t == t[..n] + [t[n]];
    calc {
      multiset(t[..n]);
      multiset(t) - multiset{t[n]};
      multiset(s) - multiset{s[n]};
      multiset(s[..n]);
    }
  }

  /** A list whose orderings are its positions has exactly one arrangement
      sorted by ordering: itself. */
  lemma {:induction false} SortedPermutationOfDenseIsIdentity(s: seq<Node>, t: seq<Node>)
    requires DenseByPosition(s, NodeOrdering)
    requires IsSortedPermutation(t, s, NodeOrdering)
    ensures t == s
    decreases |s|
  {
    assert |t| == |multiset(t)| == |multiset(s)| == |s|;
    if |s| > 0 {
      var n := |s| - 1;
      SortedDenseLast(s, t);
      MultisetDropLast(t, s);
      assert DenseByPosition(s[..n], NodeOrdering);
      assert SortedBy(t[..n], NodeOrdering);
      SortedPermutationOfDenseIsIdentity(s[..n], t[..n]);
      assert s == s[..n] + [s[n]];
      assert t == t[..n] + [t[n]];
    }
  }

  /** flatSort on a list whose orderings already equal positions returns it
      unchanged and issues no write. */
  lemma FlatSortOfDenseIsNoOp(s: seq<Node>, sorted: seq<Node>)
    requires DenseByPosition(s, NodeOrdering)
    requires IsSortedPermutation(sorted, s, NodeOrdering)
    ensures sorted == s
    ensures Renumbered(sorted) == s
    ensures RepairWrites(sorted, NodeOrdering, NodeId) == []
  {
    SortedPermutationOfDenseIsIdentity(s, sorted);
    RepairWritesExact(sorted, NodeOrdering, NodeId);
    forall i | 0 <= i < |s| ensures Renumbered(sorted)[i] == s[i] {
      assert s[i].ordering == i;
    }
  }

  /** After flatSort every element's ordering is its position, so a second
      flatSort of the result changes nothing and issues no write. */
  lemma FlatSortIdempotent(s: seq<Node>, sorted: seq<Node>, again: seq<Node>)
    requires IsSortedPermutation(sorted, s, NodeOrdering)
    requires IsSortedPermutation(again, Renumbered(sorted), NodeOrdering)
    ensures DenseByPosition(Renumbered(sorted), NodeOrdering)
    ensures Renumbered(again) == Renumbered(sorted)
    ensures RepairWrites(again, NodeOrdering, NodeId) == []
  {
    FlatSortOfDenseIsNoOp(Renumbered(sorted), again);
  }

  function Ids(s: seq<Node>): (r: seq<int>)
    ensures |r| == |s|
    ensures forall i :: 0 <= i < |s| ==> r[i] == s[i].id
  {
    seq(|s|, i requires 0 <= i < |s| => s[i].id)
  }

  /** Removing one element from a list removes it from its multiset. */
  lemma MultisetRemoveAt<T>(t: seq<T>, k: nat)
    requires k < |t|
    ensures multiset(t[..k] + t[k + 1..]) == multiset(t) - multiset{t[k]}
  {
    assert t == t[..k] + [t[k]] + t[k + 1..];
  }

  lemma IdsAppend(a: seq<Node>, b: seq<Node>)
    ensures Ids(a + b) == Ids(a) + Ids(b)
  {
  }

  /** Rearranging a list of rows rearranges their ids the same way. */
  lemma {:induction false} IdsPermutation(s: seq<Node>, t: seq<Node>)
    requires multiset(s) == multiset(t)
    ensures multiset(Ids(s)) == multiset(Ids(t))
    decreases |s|
  {
    if s == [] {
      assert |t| == |multiset(t)| == 0;
    } else {
      var x := s[0];
      var k := PositionOf(t, x);
      var before, after := t[..k], t[k + 1..];
      RemoveMatching(s, t, k);
      IdsPermutation(s[1..], before + after);
      assert t == before + [x] + after;
      IdsAppend(before + [x], after);
      IdsAppend(before, [x]);
      IdsAppend(before, after);
      assert s == [x] + s[1..];
      IdsAppend([x], s[1..]);
      assert Ids([x]) == [x.id];
    }
  }

  /** Where an element of `t`'s multiset sits in `t`. */
  lemma PositionOf<T>(t: seq<T>, x: T) returns (k: nat)
    requires x in multiset(t)
    ensures k < |t| && t[k] == x
  {
    assert x in t;
    k :| 0 <= k < |t| && t[k] == x;
  }

  /** Taking the first element of `s` out of both lists keeps their
      multisets equal. */
  lemma RemoveMatching<T>(s: seq<T>, t: seq<T>, k: nat)
    requires multiset(s) == multiset(t) && |s| > 0 && k < |t| && t[k] == s[0]
    ensures multiset(s[1..]) == multiset(t[..k] + t[k + 1..])
  {
    assert s == [s[0]] + s[1..];
    assert multiset(s[1..]) == multiset(s) - multiset{s[0]};
    MultisetRemoveAt(t, k);
  }

  /** flatSort returns the same rows: the ids, counted with multiplicity, are
      those of the input, and every ordering equals its position. */
  lemma FlatSortKeepsRows(input: seq<Node>, sorted: seq<Node>)
    requires IsSortedPermutation(sorted, input, NodeOrdering)
    ensures multiset(Ids(Renumbered(sorted))) == multiset(Ids(input))
    ensures DenseByPosition(Renumbered(sorted), NodeOrdering)
  {
    IdsPermutation(sorted, input);
    assert Ids(Renumbered(sorted)) == Ids(sorted);
  }

  /** bubbleSortSelectors leaves the shadow copy and the join row of every
      selector equal to its position, and addresses each repair write to the
      join row of a selector that was out of place; there is no write when every
      join row already holds its position. */
  lemma BubbleSortSelectorsRepairs(selectors: seq<SelectorNode>, sorted: seq<SelectorNode>)
    requires IsSortedPermutation(sorted, WithJoinOrdering(selectors), SelectorOrdering)
    ensures forall i :: 0 <= i < |sorted| ==>
      RenumberedSelectors(sorted)[i].ordering == i &&
      RenumberedSelectors(sorted)[i].join.ordering == i
    ensures forall w :: w in RepairWrites(sorted, SelectorOrdering, JoinId) ==>
      exists k :: 0 <= k < |sorted| && sorted[k].ordering != k && w == Write(sorted[k].join.id, k)
    ensures RepairWrites(sorted, SelectorOrdering, JoinId) == [] <==>
      forall i :: 0 <= i < |sorted| ==> sorted[i].join.ordering == i
  {
    ShadowsJoinPermutation(WithJoinOrdering(selectors), sorted);
    RepairWritesExact(sorted, SelectorOrdering, JoinId);
  }
}
