/** The sibling-ordering engine of the CMS routes (cmsRoute.js): every ordered
    row carries an integer `ordering`, scoped to the value of its parent column
    (or to the whole table for top-level rows). New rows go after the last
    sibling, a swap exchanges a row with its successor, and a delete closes the
    gap it leaves. The invariant all three keep is density: within a sibling
    group of n rows the orderings are exactly 0 .. n-1. */
module OrderedTables {
  import opened Wrappers
  import opened Kinds
  import Repair

  /** The columns of a row other than its id, parent and ordering that the
      ordering handlers read. */
  datatype Payload =
    | Plain
    | SelectorLink(selector: int)                             // section_selector.selector_id
    | Dimension(dimension: string, levels: seq<string>)       // profile_meta

  /** A row: the value of its parent column (`null` for top-level rows), its
      ordering and the columns above. */
  datatype Row = Row(parent: Option<int>, ordering: int, payload: Payload)

  /** A row together with its id, as a handler returns it. */
  datatype Entry = Entry(id: int, row: Row)

  /** How a handler finds a row's siblings: every row of the table, or the rows
      whose parent column (named by the key) holds the same value. */
  datatype Scope = Unscoped | Under(key: ParentKey)

  predicate InScope(r: Row, scope: Scope, parent: Option<int>)
  {
    scope.Unscoped? || r.parent == parent
  }

  /** The ids of the sibling group with the given parent value. */
  function Group(rows: map<int, Row>, scope: Scope, parent: Option<int>): (g: set<int>)
    ensures g <= rows.Keys
  {
    set id | id in rows && InScope(rows[id], scope, parent)
  }

  function Orderings(rows: map<int, Row>, g: set<int>): set<int>
    requires g <= rows.Keys
  {
    set id | id in g :: rows[id].ordering
  }

  /** The integers 0 .. n-1. */
  function Range(n: nat): (r: set<int>)
    ensures forall i :: i in r <==> 0 <= i < n
  {
    if n == 0 then {} else Range(n - 1) + {n - 1}
  }

  /** The orderings of group `g` are pairwise distinct and lie in 0 .. |g|-1. */
  ghost predicate DenseGroup(rows: map<int, Row>, g: set<int>)
    requires g <= rows.Keys
  {
    && (forall id :: id in g ==> 0 <= rows[id].ordering < |g|)
    && (forall a, b :: a in g && b in g && a != b ==> rows[a].ordering != rows[b].ordering)
  }

  /** Every sibling group of the table is dense. */
  ghost predicate Dense(rows: map<int, Row>, scope: Scope)
  {
    forall id :: id in rows ==> DenseGroup(rows, Group(rows, scope, rows[id].parent))
  }

  /** Every group of a dense table is dense, including an empty one. */
  lemma DenseAt(rows: map<int, Row>, scope: Scope, parent: Option<int>)
    requires Dense(rows, scope)
    ensures DenseGroup(rows, Group(rows, scope, parent))
  {
    if y :| y in rows && InScope(rows[y], scope, parent) {
      SameGroup(rows, scope, rows[y].parent, parent);
    }
  }

  /** Two parent values one of which a row of the other's group carries name
      the same group. */
  lemma SameGroup(rows: map<int, Row>, scope: Scope, p: Option<int>, q: Option<int>)
    requires scope.Unscoped? || p == q
    ensures Group(rows, scope, p) == Group(rows, scope, q)
  {
    assert forall id :: id in Group(rows, scope, p) <==> id in Group(rows, scope, q);
  }

  /** A table whose groups are all dense is dense. */
  lemma DenseFromGroups(rows: map<int, Row>, scope: Scope)
    requires forall p :: DenseGroup(rows, Group(rows, scope, p))
    ensures Dense(rows, scope)
  {
  }

  /** A change that keeps every id and every parent keeps every group. */
  lemma GroupsKept(rows: map<int, Row>, after: map<int, Row>, scope: Scope, p: Option<int>)
    requires after.Keys == rows.Keys
    requires forall id :: id in rows ==> after[id].parent == rows[id].parent
    ensures Group(after, scope, p) == Group(rows, scope, p)
  {
    assert forall id :: id in Group(after, scope, p) <==> id in Group(rows, scope, p);
  }

  // ---------------------------------------------------------------------------
  // Density is "the orderings are exactly 0 .. n-1"

  lemma {:induction false} RangeSize(n: nat)
    ensures |Range(n)| == n
  {
    if n > 0 {
      var r := Range(n - 1);
      RangeSize(n - 1);
      assert n - 1 !in r;
      assert |r + {n - 1}| == |r| + 1;
    }
  }

  /** Distinct orderings: the set of orderings is as large as the group. */
  lemma {:induction false} InjectiveOrderingsSize(rows: map<int, Row>, g: set<int>)
    requires g <= rows.Keys
    requires forall a, b :: a in g && b in g && a != b ==> rows[a].ordering != rows[b].ordering
    ensures |Orderings(rows, g)| == |g|
    decreases |g|
  {
    if g != {} {
      Inhabited(g);
      var x :| x in g;
      InjectiveOrderingsSize(rows, g - {x});
      assert Orderings(rows, g) == Orderings(rows, g - {x}) + {rows[x].ordering};
      assert rows[x].ordering !in Orderings(rows, g - {x});
    }
  }

  /** A group is dense exactly when its orderings are 0 .. n-1 with no repeats. */
  lemma DenseGroupOrderings(rows: map<int, Row>, g: set<int>)
    requires g <= rows.Keys
    requires DenseGroup(rows, g)
    ensures Orderings(rows, g) == Range(|g|)
  {
    InjectiveOrderingsSize(rows, g);
    RangeSize(|g|);
    var o, r := Orderings(rows, g), Range(|g|);
    assert o <= r by {
      forall x | x in o ensures x in r {
        var id :| id in g && rows[id].ordering == x;
      }
    }
    FullSubset(o, r);
  }

  /** A subset as large as its superset is the whole of it. */
  lemma FullSubset(a: set<int>, b: set<int>)
    requires a <= b && |a| == |b|
    ensures a == b
  {
    assert |b - a| == |b| - |a| == 0;
  }

  // ---------------------------------------------------------------------------
  // Insert: the new row goes after the last sibling

  /** The rule for a new row's ordering: 0 in an empty group, otherwise one more
      than the largest ordering in the group. */
  ghost predicate IsNextOrdering(rows: map<int, Row>, g: set<int>, o: int)
    requires g <= rows.Keys
  {
    && (g == {} ==> o == 0)
    && (g != {} ==> (forall id :: id in g ==> rows[id].ordering < o) &&
                    (exists id :: id in g && rows[id].ordering == o - 1))
  }

  /** `max` is the largest ordering among the rows of `seen`, or None when
      `seen` is empty. */
  ghost predicate MaxSoFar(rows: map<int, Row>, seen: set<int>, max: Option<int>)
  {
    && seen <= rows.Keys
    && (max.None? <==> seen == {})
    && (max.Some? ==> forall y :: y in seen ==> rows[y].ordering <= max.value)
    && (max.Some? ==> exists y :: y in seen && rows[y].ordering == max.value)
  }

  lemma MaxSoFarStep(rows: map<int, Row>, seen: set<int>, max: Option<int>, x: int)
    requires MaxSoFar(rows, seen, max) && x in rows
    ensures MaxSoFar(rows, seen + {x},
                     if max.None? || rows[x].ordering > max.value then Some(rows[x].ordering) else max)
  {
  }

  /** In a dense group the new row's ordering is the size of the group. */
  lemma NextOrderingOfDenseGroup(rows: map<int, Row>, g: set<int>, o: int)
    requires g <= rows.Keys
    requires DenseGroup(rows, g) && IsNextOrdering(rows, g, o)
    ensures o == |g|
  {
    if g != {} {
      DenseGroupOrderings(rows, g);
      assert |g| - 1 in Range(|g|);
      var top :| top in g && rows[top].ordering == |g| - 1;
      var id :| id in g && rows[id].ordering == o - 1;
      assert rows[top].ordering < o;
    }
  }

  function Inserted(rows: map<int, Row>, id: int, row: Row): map<int, Row>
  {
    rows[id := row]
  }

  /** Adding a row above every ordering of a dense group, at the group's size,
      leaves it dense. */
  lemma DenseGroupGrows(rows: map<int, Row>, g: set<int>, id: int, row: Row)
    requires g <= rows.Keys && id !in rows
    requires DenseGroup(rows, g) && row.ordering == |g|
    ensures DenseGroup(Inserted(rows, id, row), g + {id})
  {
    assert |g + {id}| == |g| + 1;
  }

  /** Inserting by the max+1 rule keeps every group dense, and the new row's
      ordering is the size of its group before the insert. */
  lemma InsertKeepsDense(rows: map<int, Row>, scope: Scope, id: int, row: Row)
    requires Dense(rows, scope) && id !in rows
    requires IsNextOrdering(rows, Group(rows, scope, row.parent), row.ordering)
    ensures Dense(Inserted(rows, id, row), scope)
    ensures row.ordering == |Group(rows, scope, row.parent)|
  {
    var g := Group(rows, scope, row.parent);
    DenseAt(rows, scope, row.parent);
    NextOrderingOfDenseGroup(rows, g, row.ordering);
    var after := Inserted(rows, id, row);
    forall p ensures DenseGroup(after, Group(after, scope, p)) {
      DenseAt(rows, scope, p);
      if InScope(row, scope, p) {
        SameGroup(rows, scope, row.parent, p);
        assert Group(after, scope, p) == g + {id};
        DenseGroupGrows(rows, g, id, row);
      } else {
        assert Group(after, scope, p) == Group(rows, scope, p);
      }
    }
    DenseFromGroups(after, scope);
  }

  // ---------------------------------------------------------------------------
  // Swap: a row and its successor exchange orderings

  /** The store after `ordering + 1` on `a` and `ordering - 1` on `b`. */
  function Swapped(rows: map<int, Row>, a: int, b: int): map<int, Row>
    requires a in rows && b in rows
  {
    rows[a := rows[a].(ordering := rows[a].ordering + 1)][b := rows[b].(ordering := rows[b].ordering - 1)]
  }

  /** `b` is the row the swap routes look for: same group as `a`, ordering
      one more. */
  predicate IsSuccessor(rows: map<int, Row>, scope: Scope, a: int, b: int)
    requires a in rows
  {
    b in rows && InScope(rows[b], scope, rows[a].parent) && rows[b].ordering == rows[a].ordering + 1
  }

  ghost predicate HasSuccessor(rows: map<int, Row>, scope: Scope, a: int)
    requires a in rows
  {
    exists b :: IsSuccessor(rows, scope, a, b)
  }

  /** Exchanging k and k+1 inside a dense group leaves it dense. */
  lemma DenseGroupSwap(rows: map<int, Row>, g: set<int>, a: int, b: int)
    requires g <= rows.Keys && a in g && b in g
    requires DenseGroup(rows, g) && rows[b].ordering == rows[a].ordering + 1
    ensures DenseGroup(Swapped(rows, a, b), g)
  {
  }

  /** A dense group that holds neither row is untouched by the swap. */
  lemma DenseGroupOutsideSwap(rows: map<int, Row>, g: set<int>, a: int, b: int)
    requires g <= rows.Keys && a in rows && b in rows && a !in g && b !in g
    requires DenseGroup(rows, g)
    ensures DenseGroup(Swapped(rows, a, b), g)
  {
    assert forall y :: y in g ==> Swapped(rows, a, b)[y] == rows[y];
  }

  /** A swap with the row whose ordering is one more, in the same group, keeps
      every group dense. */
  lemma SwapKeepsDense(rows: map<int, Row>, scope: Scope, a: int, b: int)
    requires Dense(rows, scope)
    requires a in rows && b in rows
    requires IsSuccessor(rows, scope, a, b)
    ensures Dense(Swapped(rows, a, b), scope)
  {
    var after := Swapped(rows, a, b);
    forall p ensures DenseGroup(after, Group(after, scope, p)) {
      GroupsKept(rows, after, scope, p);
      var g := Group(rows, scope, p);
      DenseAt(rows, scope, p);
      if a in g {
        DenseGroupSwap(rows, g, a, b);
      } else {
        DenseGroupOutsideSwap(rows, g, a, b);
      }
    }
    DenseFromGroups(after, scope);
  }

  /** The selector swap as written: the row's ordering goes up even though no
      successor was found. */
  function Bumped(rows: map<int, Row>, a: int): map<int, Row>
    requires a in rows
  {
    rows[a := rows[a].(ordering := rows[a].ordering + 1)]
  }

  // ---------------------------------------------------------------------------
  // Delete: later siblings move up, then the row goes

  /** Every row in the group of `parent` whose ordering is above `k` goes down
      by one (`ordering - 1` where `ordering > k`). */
  function DecrementedAbove(rows: map<int, Row>, scope: Scope, parent: Option<int>, k: int): (r: map<int, Row>)
    ensures r.Keys == rows.Keys
  {
    map id | id in rows :: if InScope(rows[id], scope, parent) && rows[id].ordering > k
                            then rows[id].(ordering := rows[id].ordering - 1) else rows[id]
  }

  /** The store after deleting `id`: its later siblings renumbered, then the row
      destroyed. */
  function Deleted(rows: map<int, Row>, scope: Scope, id: int): (r: map<int, Row>)
    requires id in rows
    ensures r.Keys == rows.Keys - {id}
  {
    DecrementedAbove(rows, scope, rows[id].parent, rows[id].ordering) - {id}
  }

  /** Removing the row with ordering k from a dense group and moving the rows
      above k down by one leaves it dense. */
  lemma DenseGroupShrinks(rows: map<int, Row>, after: map<int, Row>, g: set<int>, id: int)
    requires g <= rows.Keys && id in g && DenseGroup(rows, g)
    requires g - {id} <= after.Keys
    requires forall y :: y in g - {id} ==>
      after[y].ordering == if rows[y].ordering > rows[id].ordering then rows[y].ordering - 1 else rows[y].ordering
    ensures DenseGroup(after, g - {id})
  {
    assert |g - {id}| == |g| - 1;
  }

  /** A delete removes its row from its group and leaves every other group's
      membership alone. */
  lemma GroupAfterDelete(rows: map<int, Row>, scope: Scope, id: int, p: Option<int>)
    requires id in rows
    ensures Group(Deleted(rows, scope, id), scope, p) == Group(rows, scope, p) - {id}
  {
    var after := Deleted(rows, scope, id);
    assert forall y :: y in after ==> after[y].parent == rows[y].parent;
    assert forall y :: y in Group(after, scope, p) <==> y in Group(rows, scope, p) - {id};
  }

  /** Deleting a row keeps every group dense. */
  lemma DeleteKeepsDense(rows: map<int, Row>, scope: Scope, id: int)
    requires Dense(rows, scope) && id in rows
    ensures Dense(Deleted(rows, scope, id), scope)
  {
    var after := Deleted(rows, scope, id);
    forall p ensures DenseGroup(after, Group(after, scope, p)) {
      var g := Group(rows, scope, p);
      DenseAt(rows, scope, p);
      GroupAfterDelete(rows, scope, id, p);
      if InScope(rows[id], scope, p) {
        SameGroup(rows, scope, rows[id].parent, p);
        DenseGroupShrinks(rows, after, g, id);
      } else {
        assert forall y :: y in g ==> after[y] == rows[y];
        assert g - {id} == g;
      }
    }
    DenseFromGroups(after, scope);
  }

  // ---------------------------------------------------------------------------
  // Which sibling group each kind's handlers use

  /** The scope in which a kind's orderings are meant to be dense: its entry in
      the parent-ordering table, or the whole table for top-level kinds. */
  function DensityScope(k: Kind): (s: Scope)
    ensures s.Under? <==> k.OrderingParent().Some?
  {
    match k.OrderingParent()
    case Some(key) => Under(key)
    case None => Unscoped
  }

  /** The swap routes and the parent column each one filters on; kinds without
      a generic swap route map to None (section_selector has its own route). */
  function SwapScope(k: Kind): Option<Scope>
  {
    match k
    case Profile => Some(Unscoped)
    case Author | StoryDescription | StoryFootnote => Some(Under(StoryId))
    case Section => Some(Under(ProfileId))
    case SectionSubtitle | SectionDescription | SectionStat | SectionVisualization => Some(Under(SectionId))
    case StorysectionSubtitle | StorysectionDescription | StorysectionStat | StorysectionVisualization =>
      Some(Under(StorysectionId))
    case _ => None
  }

  /** What a delete route does: renumber the later rows of a group and destroy
      the row, destroy the row without renumbering (after looking it up, or
      not), or, for section_selector, remove a selector from a section. */
  datatype Deletion = Renumber(scope: Scope) | DestroyOnly(looksUp: bool) | ByBinding

  /** The delete routes as written. profile_meta renumbers without a parent
      filter. */
  function DeleteRuleAsWritten(k: Kind): Deletion
  {
    match k
    case Formatter => DestroyOnly(false)
    case Generator | Selector => DestroyOnly(true)
    case SectionSelector => ByBinding
    case Profile | Story | ProfileMeta => Renumber(Unscoped)
    case Materializer | Section => Renumber(Under(ProfileId))
    case Author | StoryDescription | StoryFootnote | Storysection => Renumber(Under(StoryId))
    case SectionSubtitle | SectionDescription | SectionStat | SectionVisualization => Renumber(Under(SectionId))
    case StorysectionSubtitle | StorysectionDescription | StorysectionStat | StorysectionVisualization =>
      Renumber(Under(StorysectionId))
  }

  /** The delete routes with profile_meta renumbering within its profile, as
      every other route with a parent column does. */
  function DeleteRule(k: Kind): Deletion
  {
    if k == ProfileMeta then Renumber(Under(ProfileId)) else DeleteRuleAsWritten(k)
  }

  /** The swap routes filter on the kind's own ordering parent. */
  lemma SwapScopeIsDensityScope(k: Kind)
    ensures SwapScope(k).Some? ==> SwapScope(k).value == DensityScope(k)
    ensures SwapScope(k).Some? ==> k.OrderingParent().Some? || k == Profile
  {
  }

  /** Every renumbering delete (with profile_meta corrected) works in the kind's
      own ordering group; exactly the three unordered kinds destroy without
      renumbering; the correction changes profile_meta alone. */
  lemma DeleteRuleIsDensityScope(k: Kind)
    ensures DeleteRule(k).Renumber? ==> DeleteRule(k).scope == DensityScope(k)
    ensures DeleteRule(k).DestroyOnly? <==> k in {Formatter, Generator, Selector}
    ensures DeleteRule(k) != DeleteRuleAsWritten(k) <==> k == ProfileMeta
    ensures DeleteRuleAsWritten(k).Renumber? ==> (DeleteRuleAsWritten(k).scope == DensityScope(k) <==> k != ProfileMeta)
  {
  }

  // ---------------------------------------------------------------------------
  // Listings

  function EntryOrdering(e: Entry): int { e.row.ordering }

  /** The rows of a group, each with its id. */
  function GroupEntries(rows: map<int, Row>, g: set<int>): set<Entry>
    requires g <= rows.Keys
  {
    set id | id in g :: Entry(id, rows[id])
  }

  // ---------------------------------------------------------------------------
  // A table of one kind, updated in place by the route handlers

  class OrderedTable {
    const kind: Kind
    var rows: map<int, Row>
    /** The id the store hands out to the next created row. */
    var nextId: int

    ghost predicate Valid()
      reads this
    {
      forall id :: id in rows ==> id < nextId
    }

    constructor (kind: Kind)
      ensures this.kind == kind && rows == map[] && nextId == 0
      ensures Valid()
    {
      this.kind := kind;
      rows := map[];
      nextId := 0;
    }

    /** `max(ordering) + 1` over the group, or 0 when the group is empty
        (`typeof max === "number" ? max + 1 : 0`). */
    method NextOrdering(scope: Scope, parent: Option<int>) returns (o: int)
      ensures IsNextOrdering(rows, Group(rows, scope, parent), o)
    {
      var g := Group(rows, scope, parent);
      var todo := g;
      var max: Option<int> := None;
      while todo != {}
        invariant todo <= g
        invariant MaxSoFar(rows, g - todo, max)
        decreases |todo|
      {
        var x := Choose(todo);
        MaxSoFarStep(rows, g - todo, max, x);
        if max.None? || rows[x].ordering > max.value {
          max := Some(rows[x].ordering);
        }
        assert g - (todo - {x}) == (g - todo) + {x};
        todo := todo - {x};
      }
      o := if max.Some? then max.value + 1 else 0;
    }

    /** The `new` route: a kind with an ordering parent gets the next ordering
        in the group of the given parent; any other kind keeps the ordering
        the request carries. The row is created under the id the body
        carries, if any, and otherwise under the next id of the store. */
    method New(at: Option<int>, parent: Option<int>, payload: Payload, requested: int) returns (id: int, row: Row)
      requires Valid() && (at.None? || at.value !in rows)
      modifies this
      ensures Valid()
      ensures id == (if at.Some? then at.value else old(nextId)) && id !in old(rows)
      ensures nextId == (if id < old(nextId) then old(nextId) else id + 1)
      ensures rows == Inserted(old(rows), id, row) && row.parent == parent && row.payload == payload
      ensures kind.OrderingParent().Some? ==>
        IsNextOrdering(old(rows), Group(old(rows), DensityScope(kind), parent), row.ordering)
      ensures kind.OrderingParent().None? ==> row.ordering == requested
      ensures kind.OrderingParent().Some? && Dense(old(rows), DensityScope(kind)) ==>
        Dense(rows, DensityScope(kind)) && row.ordering == |Group(old(rows), DensityScope(kind), parent)|
    {
      var o := requested;
      if kind.OrderingParent().Some? {
        o := NextOrdering(DensityScope(kind), parent);
      }
      id := if at.Some? then at.value else nextId;
      row := Row(parent, o, payload);
      if kind.OrderingParent().Some? && Dense(rows, DensityScope(kind)) {
        InsertKeepsDense(rows, DensityScope(kind), id, row);
      }
      rows := Inserted(rows, id, row);
      if nextId <= id {
        nextId := id + 1;
      }
    }

    /** The scaffold route for profiles: the next ordering over the whole
        table. */
    method NewTopLevel(payload: Payload) returns (id: int, row: Row)
      requires Valid() && kind == Profile
      modifies this
      ensures Valid()
      ensures id == old(nextId) && id !in old(rows) && nextId == old(nextId) + 1
      ensures rows == Inserted(old(rows), id, row) && row.parent == None && row.payload == payload
      ensures IsNextOrdering(old(rows), old(rows).Keys, row.ordering)
      ensures Dense(old(rows), Unscoped) ==> Dense(rows, Unscoped) && row.ordering == |old(rows)|
    {
      var o := NextOrdering(Unscoped, None);
      assert forall y :: y in Group(rows, Unscoped, None) <==> y in rows.Keys;
      assert Group(rows, Unscoped, None) == rows.Keys;
      id := nextId;
      row := Row(None, o, payload);
      if Dense(rows, Unscoped) {
        InsertKeepsDense(rows, Unscoped, id, row);
        assert |rows.Keys| == |rows|;
      }
      rows := Inserted(rows, id, row);
      nextId := nextId + 1;
    }

    /** The `update` route: the request body is written over the row as it
        stands, so the row takes the request's parent and other columns, and
        its ordering too when the body carries one; an id with no row changes
        nothing. An update that keeps the row's parent and ordering keeps the
        table dense (a stale ordering in the body need not, see
        `StaleOrderingBreaksDensity`). */
    method Update(id: int, parent: Option<int>, ordering: Option<int>, payload: Payload)
      modifies this
      ensures nextId == old(nextId)
      ensures id in old(rows) ==>
        rows == old(rows)[id := Row(parent, if ordering.Some? then ordering.value else old(rows)[id].ordering, payload)]
      ensures id !in old(rows) ==> rows == old(rows)
      ensures id in old(rows) && parent == old(rows)[id].parent &&
              (ordering.None? || ordering.value == old(rows)[id].ordering) && Dense(old(rows), DensityScope(kind)) ==>
        Dense(rows, DensityScope(kind))
    {
      if id in rows {
        var row := Row(parent, if ordering.Some? then ordering.value else rows[id].ordering, payload);
        if parent == rows[id].parent && row.ordering == rows[id].ordering {
          UpdateInPlaceKeepsDense(rows, DensityScope(kind), id, row);
        }
        rows := rows[id := row];
      }
    }

    /** `findAll({where: parent, order: [["ordering", "ASC"]]})`: the group,
        each row once, in ascending order. */
    method SortedGroup(scope: Scope, parent: Option<int>) returns (r: seq<Entry>)
      ensures multiset(r) == multiset(GroupEntries(rows, Group(rows, scope, parent)))
      ensures Repair.SortedBy(r, EntryOrdering)
    {
      var g := Group(rows, scope, parent);
      var todo := g;
      var acc: seq<Entry> := [];
      while todo != {}
        invariant todo <= g
        invariant multiset(acc) == multiset(GroupEntries(rows, g - todo))
        decreases |todo|
      {
        var x := Choose(todo);
        GroupEntriesGrow(rows, g - todo, x);
        acc := acc + [Entry(x, rows[x])];
        todo := todo - {x};
        assert g - todo == (g - (todo + {x})) + {x};
      }
      var a := new Entry[|acc|](i requires 0 <= i < |acc| => acc[i]);
      assert a[..] == acc;
      Repair.SortBy(a, EntryOrdering);
      r := a[..];
    }

    /** A swap route: the row's successor in its group (ordering + 1) is found;
        if both exist the row goes up by one and the successor down by one and
        both are returned, otherwise nothing changes and the reply is empty. A
        missing row fails before any write. */
    method Swap(id: int) returns (r: Outcome<seq<Entry>>)
      requires SwapScope(kind).Some?
      modifies this
      ensures nextId == old(nextId)
      ensures id !in old(rows) ==> r == NotFound && rows == old(rows)
      ensures id in old(rows) && !HasSuccessor(old(rows), SwapScope(kind).value, id) ==>
        r == Done([]) && rows == old(rows)
      ensures id in old(rows) && HasSuccessor(old(rows), SwapScope(kind).value, id) ==>
        exists b :: IsSuccessor(old(rows), SwapScope(kind).value, id, b) && rows == Swapped(old(rows), id, b) &&
                    r == Done([Entry(id, rows[id]), Entry(b, rows[b])])
      ensures Dense(old(rows), DensityScope(kind)) ==> Dense(rows, DensityScope(kind))
    {
      if id !in rows {
        return NotFound;
      }
      var scope := SwapScope(kind).value;
      SwapScopeIsDensityScope(kind);
      if b :| b in rows && IsSuccessor(rows, scope, id, b) {
        if Dense(rows, scope) {
          SwapKeepsDense(rows, scope, id, b);
        }
        rows := Swapped(rows, id, b);
        r := Done([Entry(id, rows[id]), Entry(b, rows[b])]);
      } else {
        r := Done([]);
      }
    }

    /** The section_selector swap as written: the row goes up by one before
        the successor is known to exist; with no successor the second update
        reads `other.id` on null and the handler stops there. Otherwise the
        section's selectors come back in order (none when the row has no
        section). */
    method SwapSelectorAsWritten(id: int) returns (r: Outcome<seq<Entry>>)
      requires kind == SectionSelector
      modifies this
      ensures nextId == old(nextId)
      ensures id !in old(rows) ==> r == NotFound && rows == old(rows)
      ensures id in old(rows) && !HasSuccessor(old(rows), Under(SectionId), id) ==>
        r == NotFound && rows == Bumped(old(rows), id)
      ensures id in old(rows) && HasSuccessor(old(rows), Under(SectionId), id) ==>
        (exists b :: IsSuccessor(old(rows), Under(SectionId), id, b) && rows == Swapped(old(rows), id, b)) &&
        r.Done? && SectionListing(r.value, rows, old(rows)[id].parent)
    {
      if id !in rows {
        return NotFound;
      }
      var parent := rows[id].parent;
      if b :| b in rows && IsSuccessor(rows, Under(SectionId), id, b) {
        rows := Swapped(rows, id, b);
        var listing := ListSection(parent);
        r := Done(listing);
      } else {
        rows := Bumped(rows, id);
        r := NotFound;
      }
    }

    /** The section_selector swap with the successor checked before any write,
        as the other swap routes do: with no successor nothing changes. */
    method SwapSelector(id: int) returns (r: Outcome<seq<Entry>>)
      requires kind == SectionSelector
      modifies this
      ensures nextId == old(nextId)
      ensures id !in old(rows) ==> r == NotFound && rows == old(rows)
      ensures id in old(rows) && !HasSuccessor(old(rows), Under(SectionId), id) ==> rows == old(rows)
      ensures id in old(rows) && HasSuccessor(old(rows), Under(SectionId), id) ==>
        exists b :: IsSuccessor(old(rows), Under(SectionId), id, b) && rows == Swapped(old(rows), id, b)
      ensures id in old(rows) ==> r.Done? && SectionListing(r.value, rows, old(rows)[id].parent)
      ensures Dense(old(rows), DensityScope(kind)) ==> Dense(rows, DensityScope(kind))
    {
      if id !in rows {
        return NotFound;
      }
      var parent := rows[id].parent;
      assert DensityScope(kind) == Under(SectionId);
      if b :| b in rows && IsSuccessor(rows, Under(SectionId), id, b) {
        SectionSwapKeepsDense(rows, id, b);
        rows := Swapped(rows, id, b);
      }
      var listing := ListSection(parent);
      r := Done(listing);
    }

    /** The selectors of a section in order; a row without a section has no
        section to list. */
    method ListSection(parent: Option<int>) returns (r: seq<Entry>)
      ensures SectionListing(r, rows, parent)
    {
      r := [];
      if parent.Some? {
        r := SortedGroup(Under(SectionId), parent);
      }
    }

    /** A delete route other than section_selector's (see `DeleteRule`):
        a renumbering delete moves the later rows of the row's group down by
        one, destroys the row and returns the group in order; a plain delete
        destroys the row and returns its group (generator, selector: the
        profile's rows) or the whole table (formatter). A route that looks
        the row up first fails before any write when it is missing. */
    method Delete(id: int) returns (r: Outcome<seq<Entry>>)
      requires !DeleteRule(kind).ByBinding?
      modifies this
      ensures nextId == old(nextId)
      ensures id !in old(rows) && DeleteRule(kind) != DestroyOnly(false) ==> r == NotFound && rows == old(rows)
      ensures id in old(rows) && DeleteRule(kind).Renumber? ==>
        var scope := DeleteRule(kind).scope;
        rows == Deleted(old(rows), scope, id) && r.Done? &&
        multiset(r.value) == multiset(GroupEntries(rows, Group(rows, scope, old(rows)[id].parent))) &&
        Repair.SortedBy(r.value, EntryOrdering)
      ensures id in old(rows) && DeleteRule(kind) == DestroyOnly(true) ==>
        rows == old(rows) - {id} && r.Done? &&
        multiset(r.value) == multiset(GroupEntries(rows, Group(rows, Under(ProfileId), old(rows)[id].parent)))
      ensures DeleteRule(kind) == DestroyOnly(false) ==>
        rows == old(rows) - {id} && r.Done? && multiset(r.value) == multiset(GroupEntries(rows, rows.Keys))
      ensures Dense(old(rows), DensityScope(kind)) && DeleteRule(kind).Renumber? ==> Dense(rows, DensityScope(kind))
    {
      match DeleteRule(kind)
      case Renumber(scope) =>
        if id !in rows {
          return NotFound;
        }
        var parent := rows[id].parent;
        DeleteRuleIsDensityScope(kind);
        if Dense(rows, scope) {
          DeleteKeepsDense(rows, scope, id);
        }
        rows := Deleted(rows, scope, id);
        var listing := SortedGroup(scope, parent);
        r := Done(listing);
      case DestroyOnly(looksUp) =>
        if looksUp {
          if id !in rows {
            return NotFound;
          }
          var parent := rows[id].parent;
          rows := rows - {id};
          var listing := SortedGroup(Under(ProfileId), parent);
          r := Done(listing);
        } else {
          rows := rows - {id};
          var listing := SortedGroup(Unscoped, None);
          AllRowsGroup(rows);
          r := Done(listing);
        }
    }

    /** The section_selector delete: one binding of the selector to the section
        is looked up; the section's rows above its ordering move down by one;
        every binding of the pair is destroyed; the section's selectors come
        back in order. With no binding the handler fails before any write. */
    method DeleteBinding(selector: int, section: int) returns (r: Outcome<seq<Entry>>)
      requires kind == SectionSelector
      modifies this
      ensures nextId == old(nextId)
      ensures !HasBinding(old(rows), selector, section) ==> r == NotFound && rows == old(rows)
      ensures HasBinding(old(rows), selector, section) ==>
        (exists id :: IsBinding(old(rows), id, selector, section) &&
                      rows == Unbound(old(rows), selector, section, old(rows)[id].ordering)) &&
        r.Done? && SectionListing(r.value, rows, Some(section))
      ensures (HasBinding(old(rows), selector, section) && UniqueBinding(old(rows), selector, section) &&
               Dense(old(rows), DensityScope(kind))) ==> Dense(rows, DensityScope(kind))
    {
      assert DensityScope(kind) == Under(SectionId);
      if id :| id in rows && IsBinding(rows, id, selector, section) {
        UnboundKeepsDense(rows, selector, section, id);
        rows := Unbound(rows, selector, section, rows[id].ordering);
        var listing := ListSection(Some(section));
        r := Done(listing);
      } else {
        r := NotFound;
      }
    }
  }

  /** `r` is what the section_selector routes reply with: the selectors of
      the section in order, or nothing when there is no section. */
  ghost predicate SectionListing(r: seq<Entry>, rows: map<int, Row>, parent: Option<int>)
  {
    && (parent.None? ==> r == [])
    && (parent.Some? ==> multiset(r) == multiset(GroupEntries(rows, Group(rows, Under(SectionId), parent))))
    && Repair.SortedBy(r, EntryOrdering)
  }

  /** The whole table is the one unscoped group. */
  lemma AllRowsGroup(rows: map<int, Row>)
    ensures Group(rows, Unscoped, None) == rows.Keys
  {
    assert forall y :: y in Group(rows, Unscoped, None) <==> y in rows.Keys;
  }

  // ---------------------------------------------------------------------------
  // The section_selector delete works on (selector, section) pairs

  predicate IsBinding(rows: map<int, Row>, id: int, selector: int, section: int)
  {
    id in rows && rows[id].parent == Some(section) && rows[id].payload == SelectorLink(selector)
  }

  ghost predicate HasBinding(rows: map<int, Row>, selector: int, section: int)
  {
    exists id :: IsBinding(rows, id, selector, section)
  }

  /** At most one row binds the selector to the section. */
  ghost predicate UniqueBinding(rows: map<int, Row>, selector: int, section: int)
  {
    forall a, b :: IsBinding(rows, a, selector, section) && IsBinding(rows, b, selector, section) ==> a == b
  }

  /** The section's rows above ordering `k` moved down by one, then every
      binding of the pair destroyed. */
  function Unbound(rows: map<int, Row>, selector: int, section: int, k: int): (r: map<int, Row>)
    ensures forall id :: id in r <==> id in rows && !IsBinding(rows, id, selector, section)
  {
    var lowered := DecrementedAbove(rows, Under(SectionId), Some(section), k);
    map id | id in lowered && !IsBinding(rows, id, selector, section) :: lowered[id]
  }

  /** Swapping a section's selector with its successor keeps the sections
      dense. */
  lemma SectionSwapKeepsDense(rows: map<int, Row>, a: int, b: int)
    requires a in rows && IsSuccessor(rows, Under(SectionId), a, b)
    ensures Dense(rows, Under(SectionId)) ==> Dense(Swapped(rows, a, b), Under(SectionId))
  {
    if Dense(rows, Under(SectionId)) {
      SwapKeepsDense(rows, Under(SectionId), a, b);
    }
  }

  /** Removing the only binding of a pair keeps the sections dense. */
  lemma UnboundKeepsDense(rows: map<int, Row>, selector: int, section: int, id: int)
    requires IsBinding(rows, id, selector, section)
    ensures UniqueBinding(rows, selector, section) && Dense(rows, Under(SectionId)) ==>
      Dense(Unbound(rows, selector, section, rows[id].ordering), Under(SectionId))
  {
    if UniqueBinding(rows, selector, section) && Dense(rows, Under(SectionId)) {
      UnboundIsDeleted(rows, selector, section, id);
      DeleteKeepsDense(rows, Under(SectionId), id);
    }
  }

  /** With a single binding, removing the pair is the ordinary delete of that
      row. */
  lemma UnboundIsDeleted(rows: map<int, Row>, selector: int, section: int, id: int)
    requires IsBinding(rows, id, selector, section) && UniqueBinding(rows, selector, section)
    ensures Unbound(rows, selector, section, rows[id].ordering) == Deleted(rows, Under(SectionId), id)
  {
    var u, d := Unbound(rows, selector, section, rows[id].ordering), Deleted(rows, Under(SectionId), id);
    assert u.Keys == d.Keys;
    assert forall y :: y in u ==> u[y] == d[y];
  }

  /** Adding one row's entry to a listing of a group. */
  lemma GroupEntriesGrow(rows: map<int, Row>, g: set<int>, x: int)
    requires g <= rows.Keys && x in rows && x !in g
    ensures multiset(GroupEntries(rows, g + {x})) == multiset(GroupEntries(rows, g)) + multiset{Entry(x, rows[x])}
  {
    assert GroupEntries(rows, g + {x}) == GroupEntries(rows, g) + {Entry(x, rows[x])};
    assert Entry(x, rows[x]) !in GroupEntries(rows, g);
  }

  // ---------------------------------------------------------------------------
  // The two routes that break density

  /** With profile_meta corrected, every renumbering delete route keeps the
      kind's groups dense. */
  lemma DeleteRuleKeepsDense(k: Kind, rows: map<int, Row>, id: int)
    requires DeleteRule(k).Renumber? && id in rows && Dense(rows, DensityScope(k))
    ensures Dense(Deleted(rows, DeleteRule(k).scope, id), DensityScope(k))
  {
    DeleteRuleIsDensityScope(k);
    DeleteKeepsDense(rows, DeleteRule(k).scope, id);
  }

  /** Meta rows of two profiles: profile 10 has row 1, profile 20 rows 2
      and 3. */
  function TwoProfilesMeta(): map<int, Row>
  {
    map[1 := Row(Some(10), 0, Plain), 2 := Row(Some(20), 0, Plain), 3 := Row(Some(20), 1, Plain)]
  }

  lemma TwoProfilesMetaDense()
    ensures Dense(TwoProfilesMeta(), Under(ProfileId))
  {
    var rows, scope := TwoProfilesMeta(), Under(ProfileId);
    assert forall y :: y in Group(rows, scope, Some(10)) <==> y == 1;
    assert Group(rows, scope, Some(10)) == {1};
    assert forall y :: y in Group(rows, scope, Some(20)) <==> y == 2 || y == 3;
    assert Group(rows, scope, Some(20)) == {2, 3};
  }

  /** Deleting row 1 without a parent filter lowers row 3 too. */
  lemma TwoProfilesMetaUnscopedDelete()
    ensures Deleted(TwoProfilesMeta(), Unscoped, 1) == map[2 := Row(Some(20), 0, Plain), 3 := Row(Some(20), 0, Plain)]
  {
    var after := Deleted(TwoProfilesMeta(), Unscoped, 1);
    assert after.Keys == {2, 3};
  }

  /** Deleting profile 10's only meta row as the route is written also lowers
      profile 20's row at ordering 1, which then shares ordering 0 with its
      sibling. */
  lemma MetaDeleteAsWrittenBreaksDensity()
    ensures Dense(TwoProfilesMeta(), DensityScope(ProfileMeta))
    ensures !Dense(Deleted(TwoProfilesMeta(), DeleteRuleAsWritten(ProfileMeta).scope, 1), DensityScope(ProfileMeta))
  {
    assert DensityScope(ProfileMeta) == Under(ProfileId);
    assert DeleteRuleAsWritten(ProfileMeta).scope == Unscoped;
    TwoProfilesMetaDense();
    TwoProfilesMetaUnscopedDelete();
    SharedOrderingNotDense();
  }

  lemma SharedOrderingNotDense()
    ensures !Dense(map[2 := Row(Some(20), 0, Plain), 3 := Row(Some(20), 0, Plain)], Under(ProfileId))
  {
    var after := map[2 := Row(Some(20), 0, Plain), 3 := Row(Some(20), 0, Plain)];
    var g := Group(after, Under(ProfileId), Some(20));
    assert 2 in g && 3 in g;
    assert !DenseGroup(after, g);
  }

  /** An update that keeps a row's parent and ordering keeps every group as
      it was, so the table is dense after it exactly when it was before. */
  lemma UpdateInPlaceKeepsDense(rows: map<int, Row>, scope: Scope, id: int, row: Row)
    requires id in rows && row.parent == rows[id].parent && row.ordering == rows[id].ordering
    ensures Dense(rows[id := row], scope) <==> Dense(rows, scope)
  {
    var after := rows[id := row];
    forall p ensures Group(after, scope, p) == Group(rows, scope, p)
      && (DenseGroup(after, Group(after, scope, p)) <==> DenseGroup(rows, Group(rows, scope, p)))
    {
      GroupsKept(rows, after, scope, p);
      assert forall x :: x in rows ==> after[x].ordering == rows[x].ordering;
    }
    assert forall x :: x in rows ==> after[x].parent == rows[x].parent;
  }

  /** An update whose body carries a stale ordering: profile 20's row 3
      written back with ordering 0 shares it with row 2. */
  lemma StaleOrderingBreaksDensity()
    ensures Dense(TwoProfilesMeta(), Under(ProfileId))
    ensures !Dense(TwoProfilesMeta()[3 := Row(Some(20), 0, Plain)], Under(ProfileId))
  {
    TwoProfilesMetaDense();
    var after := TwoProfilesMeta()[3 := Row(Some(20), 0, Plain)];
    var g := Group(after, Under(ProfileId), Some(20));
    assert 2 in g && 3 in g;
    assert !DenseGroup(after, g);
  }

  /** A section with a single selector: the selector swap as written moves it
      to ordering 1 although it has no successor, leaving a group of one row
      whose ordering is not 0. */
  lemma SelectorSwapAsWrittenBreaksDensity()
    ensures var rows := map[1 := Row(Some(5), 0, SelectorLink(7))];
      && Dense(rows, DensityScope(SectionSelector))
      && !HasSuccessor(rows, Under(SectionId), 1)
      && !Dense(Bumped(rows, 1), DensityScope(SectionSelector))
  {
    var rows := map[1 := Row(Some(5), 0, SelectorLink(7))];
    var scope := Under(SectionId);
    assert DensityScope(SectionSelector) == scope;
    assert forall y :: y in Group(rows, scope, Some(5)) <==> y == 1;
    assert Group(rows, scope, Some(5)) == {1};
    var after := Bumped(rows, 1);
    assert forall y :: y in Group(after, scope, Some(5)) <==> y == 1;
    assert Group(after, scope, Some(5)) == {1};
  }
}
