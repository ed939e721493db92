/** Search-index maintenance (cmsRoute.js): the search table holds one row per
    cube member, keyed by member id, dimension and level (`hierarchy`), with a
    permanent slug and a content row per locale holding the member's name.
    `populateSearch` upserts every member of the profile's dimension for every
    locale, `pruneSearch` drops a dimension's rows once no profile_meta row
    uses it, and `upsertDimension` decides when to do both. The cube is read
    through a remote client; here its answers are an input. */
module SearchIndexing {
  import opened Wrappers
  import opened Texts
  import opened Slugs
  import opened Kinds
  import opened OrderedTables

  // ---------------------------------------------------------------------------
  // What the cube returns, and `formatter`

  /** A cube member: its key, caption and name. */
  datatype CubeMember = CubeMember(key: string, caption: string, name: string)

  /** The answers of the cube for one dimension: its level names in
      hierarchy order, the members of each (level, locale) and the measure of
      each member key per level. A query that failed shows up as an absent
      entry. */
  datatype Cube = Cube(levels: seq<string>, members: map<(string, string), seq<CubeMember>>,
                       data: map<string, map<string, real>>)

  /** One entry of the list `formatter` builds. */
  datatype Member = Member(id: string, name: string, zvalue: real, dimension: string, hierarchy: string, stem: int)

  /** `d.caption || d.name`. */
  function Label(m: CubeMember): string
  {
    if m.caption != "" then m.caption else m.name
  }

  /** `data[obj.id] || 0`. */
  function Measure(data: map<string, real>, key: string): real
  {
    if key in data then data[key] else 0.0
  }

  /** `formatter`, without its z-score step: one entry per member, in order,
      named by its caption (its name when the caption is empty), valued by its
      measure (0 when the cube has none), tagged with the dimension and level,
      with stem -1. */
  function Format(members: seq<CubeMember>, data: map<string, real>, dimension: string, level: string): (r: seq<Member>)
    ensures |r| == |members|
    ensures forall i :: 0 <= i < |r| ==>
      r[i].id == members[i].key && r[i].dimension == dimension && r[i].hierarchy == level && r[i].stem == -1
    ensures forall i :: 0 <= i < |r| ==>
      r[i].name == (if members[i].caption != "" then members[i].caption else members[i].name) &&
      r[i].zvalue == (if members[i].key in data then data[members[i].key] else 0.0)
  {
    seq(|members|, i requires 0 <= i < |members| =>
      Member(members[i].key, Label(members[i]), Measure(data, members[i].key), dimension, level, -1))
  }

  /** The levels `populateSearch` indexes: the cube's levels other than
      "(All)" that the profile asked for, in the cube's order. */
  function IndexedLevels(cubeLevels: seq<string>, wanted: seq<string>): (r: seq<string>)
    ensures forall l :: l in r <==> l in cubeLevels && l != "(All)" && l in wanted
    ensures |r| <= |cubeLevels|
  {
    if |cubeLevels| == 0 then []
    else
      var rest := IndexedLevels(cubeLevels[1..], wanted);
      if cubeLevels[0] != "(All)" && cubeLevels[0] in wanted then [cubeLevels[0]] + rest else rest
  }

  /** `fullList` for one locale: the formatted members of each indexed level,
      level after level. */
  function FullList(cube: Cube, dimension: string, levels: seq<string>, locale: string): (r: seq<Member>)
    ensures forall i :: 0 <= i < |r| ==> r[i].dimension == dimension && r[i].hierarchy in levels && r[i].stem == -1
  {
    if |levels| == 0 then []
    else
      var level := levels[0];
      var members := if (level, locale) in cube.members then cube.members[(level, locale)] else [];
      var data := if level in cube.data then cube.data[level] else map[];
      Format(members, data, dimension, level) + FullList(cube, dimension, levels[1..], locale)
  }

  // ---------------------------------------------------------------------------
  // The search table

  datatype SearchKey = SearchKey(id: string, dimension: string, hierarchy: string)

  /** A search row: the id of its content rows, its value, stem and slug (the
      empty string for none). */
  datatype SearchRow = SearchRow(contentId: int, zvalue: real, stem: int, slug: string)

  function KeyOf(m: Member): SearchKey
  {
    SearchKey(m.id, m.dimension, m.hierarchy)
  }

  /** The update an existing row receives: everything but the slug, which is
      only filled in when the row had none. */
  function Refreshed(row: SearchRow, m: Member, slug: string): SearchRow
  {
    SearchRow(row.contentId, m.zvalue, m.stem, if row.slug != "" then row.slug else slug)
  }

  /** The non-empty slugs stored under the given keys. */
  function SlugsIn(rows: map<SearchKey, SearchRow>, keys: set<SearchKey>): set<string>
  {
    set k | k in keys && k in rows && rows[k].slug != "" :: rows[k].slug
  }

  /** Some profile_meta row uses the dimension. */
  predicate DimensionInUse(meta: map<int, Row>, dimension: string)
  {
    exists id :: id in meta && DimensionOf(meta[id].payload) == dimension
  }

  function DimensionOf(p: Payload): string
  {
    if p.Dimension? then p.dimension else ""
  }

  function LevelsOf(p: Payload): seq<string>
  {
    if p.Dimension? then p.levels else []
  }

  /** The search rows left by a prune of `dimension`. */
  function Pruned(rows: map<SearchKey, SearchRow>, meta: map<int, Row>, dimension: string): map<SearchKey, SearchRow>
  {
    if DimensionInUse(meta, dimension) then rows
    else map k | k in rows && k.dimension != dimension :: rows[k]
  }

  /** The content ids of the rows a prune of `dimension` removes. */
  function PrunedContentIds(rows: map<SearchKey, SearchRow>, meta: map<int, Row>, dimension: string): set<int>
  {
    if DimensionInUse(meta, dimension) then {}
    else set k | k in rows && k.dimension == dimension :: rows[k].contentId
  }

  /** The content rows left once the given content ids are gone (the content
      table's foreign key cascades the delete). */
  function ContentWithout(content: map<(int, string), string>, ids: set<int>): map<(int, string), string>
  {
    map c | c in content && c.0 !in ids :: content[c]
  }

  /** A prune removes a search row exactly when it belongs to the dimension
      and no profile_meta row uses that dimension any more; the rows it keeps
      are unchanged. */
  lemma PruneRemovesExactlyUnusedDimension(rows: map<SearchKey, SearchRow>, meta: map<int, Row>, dimension: string)
    ensures forall k :: k in Pruned(rows, meta, dimension) <==>
      k in rows && (k.dimension != dimension || DimensionInUse(meta, dimension))
    ensures forall k :: k in Pruned(rows, meta, dimension) ==> Pruned(rows, meta, dimension)[k] == rows[k]
  {
  }

  /** With the request's levels free of commas and of empty names, the
      re-index test `dimension !== … || levels.join() !== …` fires exactly when
      the dimension or the list of levels changed. */
  lemma ReindexExactlyOnChange(d1: string, l1: seq<string>, d2: string, l2: seq<string>)
    requires WellFormedLevels(l1) && WellFormedLevels(l2)
    ensures ReindexNeeded(Dimension(d1, l1), Dimension(d2, l2)) <==> d1 != d2 || l1 != l2
  {
    if Join(l1, ',') == Join(l2, ',') {
      if |l1| == 0 || |l2| == 0 {
        JoinEmpty(l1);
        JoinEmpty(l2);
      } else {
        JoinInjective(l1, l2, ',');
      }
    }
  }

  /** Level names are non-empty and hold no comma. */
  predicate WellFormedLevels(levels: seq<string>)
  {
    SeparatorFree(levels, ',') && forall i :: 0 <= i < |levels| ==> levels[i] != ""
  }

  /** A list of non-empty names joins to the empty string only when it is
      empty. */
  lemma JoinEmpty(levels: seq<string>)
    requires WellFormedLevels(levels)
    ensures Join(levels, ',') == "" <==> |levels| == 0
  {
    if |levels| > 0 {
      JoinStartsWithFirst(levels);
    }
  }

  lemma JoinStartsWithFirst(parts: seq<string>)
    requires |parts| > 0
    ensures |Join(parts, ',')| >= |parts[0]|
  {
  }

  /** `upsertDimension`'s test on an update: the dimension changed or the
      comma-joined levels differ. */
  predicate ReindexNeeded(before: Payload, after: Payload)
  {
    DimensionOf(before) != DimensionOf(after) || Join(LevelsOf(before), ',') != Join(LevelsOf(after), ',')
  }

  /** A level renamed to hold a comma can go unnoticed: one level "a,b"
      joins like the two levels "a" and "b". */
  lemma ReindexMissesCommaInLevel()
    ensures !ReindexNeeded(Dimension("Geography", ["a,b"]), Dimension("Geography", ["a", "b"]))
  {
    JoinCollisions();
  }

  /** The effect of one upsert on the table, the content rows and the next
      content id. */
  ghost predicate UpsertEffect(rows: map<SearchKey, SearchRow>, content: map<(int, string), string>, next: int,
                               rows': map<SearchKey, SearchRow>, content': map<(int, string), string>, next': int,
                               m: Member, slug: string, locale: string)
  {
    && (KeyOf(m) !in rows ==>
          && rows' == rows[KeyOf(m) := SearchRow(next, m.zvalue, m.stem, slug)]
          && content' == content[(next, locale) := m.name] && next' == next + 1)
    && (KeyOf(m) in rows ==>
          && rows' == rows[KeyOf(m) := Refreshed(rows[KeyOf(m)], m, slug)]
          && content' == content[(rows[KeyOf(m)].contentId, locale) := m.name] && next' == next)
  }

  /** What one locale's pass leaves of the rows and content it started from:
      old rows keep their content id and their non-empty slug, and other
      locales' content is untouched. */
  ghost predicate KeepsOld(before: map<SearchKey, SearchRow>, beforeContent: map<(int, string), string>,
                           rows: map<SearchKey, SearchRow>, content: map<(int, string), string>, locale: string)
  {
    && (forall k :: k in before ==> k in rows && rows[k].contentId == before[k].contentId)
    && (forall k :: k in before && before[k].slug != "" ==> rows[k].slug == before[k].slug)
    && (forall c :: c in beforeContent && c.1 != locale ==> c in content && content[c] == beforeContent[c])
  }

  /** After the first `i` members: each has a row with content in the
      locale, every new row is one of theirs, and every other old row is
      untouched. */
  ghost predicate Covers(before: map<SearchKey, SearchRow>, rows: map<SearchKey, SearchRow>,
                         content: map<(int, string), string>, list: seq<Member>, i: nat, locale: string)
    requires i <= |list|
  {
    && (forall j :: 0 <= j < i ==> KeyOf(list[j]) in rows && (rows[KeyOf(list[j])].contentId, locale) in content)
    && (forall k :: k in rows && k !in before ==> exists j :: 0 <= j < i && KeyOf(list[j]) == k)
    && (forall k :: k in before && (forall j :: 0 <= j < i ==> KeyOf(list[j]) != k) ==> k in rows && rows[k] == before[k])
  }

  ghost predicate Populated(before: map<SearchKey, SearchRow>, beforeContent: map<(int, string), string>,
                            rows: map<SearchKey, SearchRow>, content: map<(int, string), string>,
                            list: seq<Member>, i: nat, locale: string)
    requires i <= |list|
  {
    KeepsOld(before, beforeContent, rows, content, locale) && Covers(before, rows, content, list, i, locale)
  }

  lemma KeepsOldStep(before: map<SearchKey, SearchRow>, beforeContent: map<(int, string), string>,
                     rows: map<SearchKey, SearchRow>, content: map<(int, string), string>, next: int,
                     rows': map<SearchKey, SearchRow>, content': map<(int, string), string>, next': int,
                     m: Member, locale: string, slug: string)
    requires KeepsOld(before, beforeContent, rows, content, locale)
    requires UpsertEffect(rows, content, next, rows', content', next', m, slug, locale)
    ensures KeepsOld(before, beforeContent, rows', content', locale)
  {
  }

  lemma CoversStep(before: map<SearchKey, SearchRow>,
                   rows: map<SearchKey, SearchRow>, content: map<(int, string), string>, next: int,
                   rows': map<SearchKey, SearchRow>, content': map<(int, string), string>, next': int,
                   list: seq<Member>, i: nat, locale: string, slug: string)
    requires i < |list|
    requires Covers(before, rows, content, list, i, locale)
    requires UpsertEffect(rows, content, next, rows', content', next', list[i], slug, locale)
    ensures Covers(before, rows', content', list, i + 1, locale)
  {
    var key := KeyOf(list[i]);
    assert key in rows' && (rows'[key].contentId, locale) in content';
    forall j | 0 <= j < i
      ensures KeyOf(list[j]) in rows' && (rows'[KeyOf(list[j])].contentId, locale) in content'
    {
      var k := KeyOf(list[j]);
      if k != key {
        assert rows'[k] == rows[k];
      }
    }
    forall k | k in rows' && k !in before
      ensures exists j :: 0 <= j < i + 1 && KeyOf(list[j]) == k
    {
      if k == key {
        assert KeyOf(list[i]) == k;
      } else {
        assert k in rows;
        var j :| 0 <= j < i && KeyOf(list[j]) == k;
        assert 0 <= j < i + 1;
      }
    }
    forall k | k in before && (forall j :: 0 <= j < i + 1 ==> KeyOf(list[j]) != k)
      ensures k in rows' && rows'[k] == before[k]
    {
      assert KeyOf(list[i]) != k;
    }
  }

  lemma PopulatedStep(before: map<SearchKey, SearchRow>, beforeContent: map<(int, string), string>,
                      rows: map<SearchKey, SearchRow>, content: map<(int, string), string>, next: int,
                      rows': map<SearchKey, SearchRow>, content': map<(int, string), string>, next': int,
                      list: seq<Member>, i: nat, locale: string, slug: string)
    requires i < |list|
    requires Populated(before, beforeContent, rows, content, list, i, locale)
    requires UpsertEffect(rows, content, next, rows', content', next', list[i], slug, locale)
    ensures Populated(before, beforeContent, rows', content', list, i + 1, locale)
  {
    KeepsOldStep(before, beforeContent, rows, content, next, rows', content', next', list[i], locale, slug);
    CoversStep(before, rows, content, next, rows', content', next', list, i, locale, slug);
  }

  /** What re-indexing one dimension may do to the rows: every old row keeps
      its content id and its non-empty slug, new rows belong to the dimension,
      and rows of other dimensions are untouched. */
  ghost predicate Extends(before: map<SearchKey, SearchRow>, rows: map<SearchKey, SearchRow>, dimension: string)
  {
    && (forall k :: k in before ==> k in rows && rows[k].contentId == before[k].contentId)
    && (forall k :: k in before && before[k].slug != "" ==> rows[k].slug == before[k].slug)
    && (forall k :: k in rows && k !in before ==> k.dimension == dimension)
    && (forall k :: k in before && k.dimension != dimension ==> rows[k] == before[k])
  }

  /** Populating one locale with members of the dimension keeps `Extends`. */
  lemma ExtendsStep(start: map<SearchKey, SearchRow>, before: map<SearchKey, SearchRow>,
                    beforeContent: map<(int, string), string>, rows: map<SearchKey, SearchRow>,
                    content: map<(int, string), string>, list: seq<Member>, locale: string, dimension: string)
    requires Extends(start, before, dimension)
    requires Populated(before, beforeContent, rows, content, list, |list|, locale)
    requires forall i :: 0 <= i < |list| ==> list[i].dimension == dimension
    ensures Extends(start, rows, dimension)
  {
    forall k | k in rows && k !in start ensures k.dimension == dimension {
      if k !in before {
        var j :| 0 <= j < |list| && KeyOf(list[j]) == k;
      }
    }
    forall k | k in start && k.dimension != dimension ensures rows[k] == start[k] {
      assert forall j :: 0 <= j < |list| ==> KeyOf(list[j]) != k;
    }
  }

  /** Every member of the list has a row with a name in the locale. */
  ghost predicate Indexed(rows: map<SearchKey, SearchRow>, content: map<(int, string), string>,
                          list: seq<Member>, locale: string)
  {
    forall j :: 0 <= j < |list| ==> KeyOf(list[j]) in rows && (rows[KeyOf(list[j])].contentId, locale) in content
  }

  /** The keys of a member list. */
  function KeysOf(list: seq<Member>): set<SearchKey>
  {
    set m | m in list :: KeyOf(m)
  }

  /** After the first `n` locales: every member of each of their lists is
      indexed in that locale, and every row not in `start` is a member of one
      of their lists. */
  ghost predicate LocalesDone(start: map<SearchKey, SearchRow>, rows: map<SearchKey, SearchRow>,
                              content: map<(int, string), string>, cube: Cube, dimension: string,
                              levels: seq<string>, locales: seq<string>, n: nat)
    requires n <= |locales|
  {
    && (forall m :: 0 <= m < n ==> Indexed(rows, content, FullList(cube, dimension, levels, locales[m]), locales[m]))
    && (forall k :: k in rows && k !in start ==>
          exists m :: 0 <= m < n && k in KeysOf(FullList(cube, dimension, levels, locales[m])))
  }

  /** A locale's pass keeps what earlier passes indexed: their rows keep their
      content ids, and other locales' names are untouched (a repeated locale
      has the same list, which the pass covers again). */
  lemma LocalesDoneStep(start: map<SearchKey, SearchRow>, before: map<SearchKey, SearchRow>,
                        beforeContent: map<(int, string), string>, rows: map<SearchKey, SearchRow>,
                        content: map<(int, string), string>, cube: Cube, dimension: string,
                        levels: seq<string>, locales: seq<string>, n: nat)
    requires n < |locales|
    requires LocalesDone(start, before, beforeContent, cube, dimension, levels, locales, n)
    requires Populated(before, beforeContent, rows, content, FullList(cube, dimension, levels, locales[n]), |FullList(cube, dimension, levels, locales[n])|, locales[n])
    ensures LocalesDone(start, rows, content, cube, dimension, levels, locales, n + 1)
  {
    forall m | 0 <= m < n + 1
      ensures Indexed(rows, content, FullList(cube, dimension, levels, locales[m]), locales[m])
    {
      if locales[m] != locales[n] {
        IndexedKept(before, beforeContent, rows, content, FullList(cube, dimension, levels, locales[m]), locales[m], locales[n]);
      }
    }
    forall k | k in rows && k !in start
      ensures exists m :: 0 <= m < n + 1 && k in KeysOf(FullList(cube, dimension, levels, locales[m]))
    {
      if k !in before {
        NewRowListed(before, rows, content, FullList(cube, dimension, levels, locales[n]), locales[n], k);
      } else {
        var m :| 0 <= m < n && k in KeysOf(FullList(cube, dimension, levels, locales[m]));
        assert 0 <= m < n + 1;
      }
    }
  }

  /** Another locale's pass keeps a list indexed. */
  lemma IndexedKept(before: map<SearchKey, SearchRow>, beforeContent: map<(int, string), string>,
                    rows: map<SearchKey, SearchRow>, content: map<(int, string), string>,
                    list: seq<Member>, locale: string, other: string)
    requires locale != other
    requires Indexed(before, beforeContent, list, locale)
    requires KeepsOld(before, beforeContent, rows, content, other)
    ensures Indexed(rows, content, list, locale)
  {
    forall j | 0 <= j < |list|
      ensures KeyOf(list[j]) in rows && (rows[KeyOf(list[j])].contentId, locale) in content
    {
      var k := KeyOf(list[j]);
      assert k in before && (before[k].contentId, locale) in beforeContent;
    }
  }

  /** A row a pass created is a member of the pass's list. */
  lemma NewRowListed(before: map<SearchKey, SearchRow>, rows: map<SearchKey, SearchRow>,
                     content: map<(int, string), string>, list: seq<Member>, locale: string, k: SearchKey)
    requires Covers(before, rows, content, list, |list|, locale)
    requires k in rows && k !in before
    ensures k in KeysOf(list)
  {
    var j :| 0 <= j < |list| && KeyOf(list[j]) == k;
    assert list[j] in list;
  }

  /** `LocalesDone` asks for rows: with one member in the cube, a search
      table left empty does not satisfy it. */
  lemma UnindexedMemberNotDone()
    ensures var cube := Cube(["City"], map[("City", "en") := [CubeMember("1", "Paris", "")]], map[]);
      !LocalesDone(map[], map[], map[], cube, "Geography", IndexedLevels(cube.levels, ["City"]), ["en"], 1)
  {
    var cube := Cube(["City"], map[("City", "en") := [CubeMember("1", "Paris", "")]], map[]);
    assert IndexedLevels(cube.levels, ["City"]) == ["City"];
    var list := FullList(cube, "Geography", ["City"], "en");
    assert list == Format([CubeMember("1", "Paris", "")], map[], "Geography", "City") + FullList(cube, "Geography", [], "en");
    assert |list| == 1;
    var none: map<SearchKey, SearchRow> := map[];
    var names: map<(int, string), string> := map[];
    assert KeyOf(list[0]) !in none;
    assert !Indexed(none, names, FullList(cube, "Geography", IndexedLevels(cube.levels, ["City"]), ["en"][0]), ["en"][0]);
  }

  class SearchIndex {
    var rows: map<SearchKey, SearchRow>
    /** Translated names, keyed by content id and locale. */
    var content: map<(int, string), string>
    /** The content id the store hands out to the next created search row. */
    var nextContentId: int

    ghost predicate Valid()
      reads this
    {
      && (forall k :: k in rows ==> rows[k].contentId < nextContentId)
      && (forall c :: c in content ==> c.0 < nextContentId)
    }

    constructor ()
      ensures rows == map[] && content == map[] && nextContentId == 0
      ensures Valid()
    {
      rows := map[];
      content := map[];
      nextContentId := 0;
    }

    /** `(await db.search.findAll()).map(s => s.slug).filter(d => d)`: the
        stored non-empty slugs. */
    method StoredSlugs() returns (r: seq<string>)
      ensures forall s :: s in r <==> s in SlugsIn(rows, rows.Keys)
    {
      var todo := rows.Keys;
      r := [];
      while todo != {}
        invariant todo <= rows.Keys
        invariant forall s :: s in r <==> s in SlugsIn(rows, rows.Keys - todo)
        decreases |todo|
      {
        var k := Choose(todo);
        ghost var before := rows.Keys - todo;
        if rows[k].slug != "" {
          r := r + [rows[k].slug];
        }
        todo := todo - {k};
        assert rows.Keys - todo == before + {k};
        assert SlugsIn(rows, before + {k}) ==
          SlugsIn(rows, before) + (if rows[k].slug != "" then {rows[k].slug} else {});
      }
    }

    /** One step of the upsert loop: `findOrCreate` by (id, dimension,
        hierarchy). A new row takes the member's values and the slug; an
        existing row takes the member's values and keeps a slug it already
        has. Either way the member's name is stored for the locale. */
    method Upsert(m: Member, slug: string, locale: string)
      requires Valid()
      modifies this
      ensures Valid()
      ensures UpsertEffect(old(rows), old(content), old(nextContentId), rows, content, nextContentId, m, slug, locale)
      ensures KeyOf(m) !in old(rows) ==>
        && rows == old(rows)[KeyOf(m) := SearchRow(old(nextContentId), m.zvalue, m.stem, slug)]
        && (old(nextContentId), locale) !in old(content)
        && content == old(content)[(old(nextContentId), locale) := m.name]
        && nextContentId == old(nextContentId) + 1
      ensures KeyOf(m) in old(rows) ==>
        && rows == old(rows)[KeyOf(m) := Refreshed(old(rows)[KeyOf(m)], m, slug)]
        && content == old(content)[(old(rows)[KeyOf(m)].contentId, locale) := m.name]
        && nextContentId == old(nextContentId)
    {
      var key := KeyOf(m);
      if key !in rows {
        rows := rows[key := SearchRow(nextContentId, m.zvalue, m.stem, slug)];
        content := content[(nextContentId, locale) := m.name];
        nextContentId := nextContentId + 1;
      } else {
        var row := rows[key];
        rows := rows[key := Refreshed(row, m, slug)];
        content := content[(row.contentId, locale) := m.name];
      }
    }

    /** The body of `populateSearch` for one locale: the stored slugs are read,
        then every member of the list gets a slug and is upserted. */
    method PopulateLocale(list: seq<Member>, strip: string -> string, locale: string)
      requires Valid()
      modifies this
      ensures Valid()
      ensures Populated(old(rows), old(content), rows, content, list, |list|, locale)
    {
      var stored := StoredSlugs();
      var registry := new SlugRegistry(stored);
      var i := 0;
      while i < |list|
        invariant 0 <= i <= |list|
        invariant Valid()
        invariant Populated(old(rows), old(content), rows, content, list, i, locale)
      {
        var slug := registry.Slugify(strip, list[i].name, list[i].id);
        ghost var rows0, content0, next0 := rows, content, nextContentId;
        Upsert(list[i], slug, locale);
        PopulatedStep(old(rows), old(content), rows0, content0, next0, rows, content, nextContentId, list, i, locale, slug);
        i := i + 1;
      }
    }

    /** `populateSearch`: the indexed levels are worked out once, then every
        locale's member list is upserted in turn. Afterwards every member of
        every locale's list has a row named in that locale, each new row is
        such a member, and old rows keep their content ids and slugs. */
    method Populate(cube: Cube, dimension: string, wanted: seq<string>, locales: seq<string>, strip: string -> string)
      requires Valid()
      modifies this
      ensures Valid()
      ensures Extends(old(rows), rows, dimension)
      ensures LocalesDone(old(rows), rows, content, cube, dimension, IndexedLevels(cube.levels, wanted), locales, |locales|)
    {
      var levels := IndexedLevels(cube.levels, wanted);
      var n := 0;
      while n < |locales|
        invariant 0 <= n <= |locales|
        invariant Valid()
        invariant Extends(old(rows), rows, dimension)
        invariant LocalesDone(old(rows), rows, content, cube, dimension, levels, locales, n)
      {
        var list := FullList(cube, dimension, levels, locales[n]);
        ghost var before, beforeContent := rows, content;
        PopulateLocale(list, strip, locales[n]);
        ExtendsStep(old(rows), before, beforeContent, rows, content, list, locales[n], dimension);
        LocalesDoneStep(old(rows), before, beforeContent, rows, content, cube, dimension, levels, locales, n);
        n := n + 1;
      }
    }

    /** `pruneSearch`: when no profile_meta row uses the dimension any more,
        every search row of it goes, with its content rows; otherwise
        nothing changes. */
    method Prune(meta: map<int, Row>, dimension: string)
      requires Valid()
      modifies this
      ensures Valid()
      ensures rows == Pruned(old(rows), meta, dimension)
      ensures content == ContentWithout(old(content), PrunedContentIds(old(rows), meta, dimension))
      ensures nextContentId == old(nextContentId)
    {
      var inUse := DimensionInUse(meta, dimension);
      if !inUse {
        var gone := PrunedContentIds(rows, meta, dimension);
        rows := Pruned(rows, meta, dimension);
        content := ContentWithout(content, gone);
      } else {
        assert ContentWithout(content, {}) == content;
      }
    }
  }

  // ---------------------------------------------------------------------------
  // The routes that write profile_meta

  /** The body of `upsertDimension`: which profile_meta row (if any), for
      which profile, the ordering the body carries (if any), and the
      dimension and levels chosen. */
  datatype DimensionRequest = DimensionRequest(metaId: Option<int>, profile: int, ordering: Option<int>,
                                               dimension: string, levels: seq<string>)

  /** `upsertDimension`. With no stored row of the request's id a row is
      created, under that id when the body carries one, after the profile's
      last meta row, and the dimension is indexed. Otherwise the row is
      updated, and only if its dimension or levels changed is the old
      dimension pruned and the new one indexed. */
  method UpsertDimension(meta: OrderedTable, search: SearchIndex, req: DimensionRequest,
                         cube: Cube, locales: seq<string>, strip: string -> string)
    returns (id: int, reindexed: bool)
    requires meta.kind == ProfileMeta && meta.Valid() && search.Valid()
    modifies meta, search
    ensures meta.Valid() && search.Valid()
    ensures (req.metaId.None? || req.metaId.value !in old(meta.rows)) ==>
      && id == (if req.metaId.Some? then req.metaId.value else old(meta.nextId)) && id !in old(meta.rows) && id in meta.rows
      && meta.rows == Inserted(old(meta.rows), id, Row(Some(req.profile), meta.rows[id].ordering, Dimension(req.dimension, req.levels)))
      && IsNextOrdering(old(meta.rows), Group(old(meta.rows), Under(ProfileId), Some(req.profile)), meta.rows[id].ordering)
      && reindexed
    ensures (req.metaId.Some? && req.metaId.value in old(meta.rows)) ==>
      && id == req.metaId.value
      && meta.rows == old(meta.rows)[id := Row(Some(req.profile),
                                               if req.ordering.Some? then req.ordering.value else old(meta.rows)[id].ordering,
                                               Dimension(req.dimension, req.levels))]
      && reindexed == ReindexNeeded(old(meta.rows)[id].payload, Dimension(req.dimension, req.levels))
    ensures !reindexed ==> search.rows == old(search.rows) && search.content == old(search.content)
    ensures reindexed ==>
      var base := if id in old(meta.rows) then Pruned(old(search.rows), meta.rows, DimensionOf(old(meta.rows)[id].payload))
                  else old(search.rows);
      && Extends(base, search.rows, req.dimension)
      && LocalesDone(base, search.rows, search.content, cube, req.dimension, IndexedLevels(cube.levels, req.levels),
                     locales, |locales|)
    ensures forall k :: k in old(search.rows) && k.dimension != req.dimension &&
                        k.dimension != DimensionOf(if id in old(meta.rows) then old(meta.rows)[id].payload else Plain) ==>
      k in search.rows && search.rows[k] == old(search.rows)[k]
  {
    var payload := Dimension(req.dimension, req.levels);
    if req.metaId.None? || req.metaId.value !in meta.rows {
      var row;
      id, row := meta.New(req.metaId, Some(req.profile), payload, 0);
      search.Populate(cube, req.dimension, req.levels, locales, strip);
      reindexed := true;
    } else {
      id := req.metaId.value;
      var before := meta.rows[id].payload;
      meta.Update(id, Some(req.profile), req.ordering, payload);
      reindexed := ReindexNeeded(before, payload);
      if reindexed {
        search.Prune(meta.rows, DimensionOf(before));
        search.Populate(cube, req.dimension, req.levels, locales, strip);
      }
    }
  }

  /** The profile_meta delete route, with the renumbering scoped to the
      row's profile: the row goes, then its dimension is pruned against the
      rows that remain. A missing row fails before any write. */
  method DeleteMeta(meta: OrderedTable, search: SearchIndex, id: int) returns (r: Outcome<seq<Entry>>)
    requires meta.kind == ProfileMeta && meta.Valid() && search.Valid()
    modifies meta, search
    ensures meta.Valid() && search.Valid()
    ensures meta.nextId == old(meta.nextId) && search.nextContentId == old(search.nextContentId)
    ensures id !in old(meta.rows) ==>
      r == NotFound && meta.rows == old(meta.rows) && search.rows == old(search.rows) && search.content == old(search.content)
    ensures id in old(meta.rows) ==>
      && meta.rows == Deleted(old(meta.rows), Under(ProfileId), id)
      && search.rows == Pruned(old(search.rows), meta.rows, DimensionOf(old(meta.rows)[id].payload))
      && search.content == ContentWithout(old(search.content),
                                          PrunedContentIds(old(search.rows), meta.rows, DimensionOf(old(meta.rows)[id].payload)))
    ensures Dense(old(meta.rows), Under(ProfileId)) ==> Dense(meta.rows, Under(ProfileId))
  {
    if id !in meta.rows {
      return NotFound;
    }
    var dimension := DimensionOf(meta.rows[id].payload);
    assert DeleteRule(meta.kind) == Renumber(Under(ProfileId)) && DensityScope(meta.kind) == Under(ProfileId);
    r := meta.Delete(id);
    search.Prune(meta.rows, dimension);
  }
}
