# Ordering, search index and selector editor of the CMS

This project models three parts of the CMS package and proves properties of them.

- **Sibling ordering in the CMS routes.** This covers `packages/cms/src/api/cmsRoute.js` and the table lists in `packages/cms/src/utils/sequelize/models.js`.
  - Every ordered row carries an integer `ordering`. It is scoped to the value of a parent column (`story_id`, `profile_id`, `section_id`, `storysection_id`), or to the whole table for top-level rows.
  - The `new` route puts a row after its last sibling (max + 1, or 0 for an empty group). A swap exchanges a row with its successor (ordering + 1, same parent). A delete moves the later siblings down by one and destroys the row.
  - On read, `flatSort` and `bubbleSortSelectors` sort a list by ordering and patch every element that is out of place.
  - The invariant is *density*: within a group of n rows the orderings are exactly 0 .. n-1.
  - The table is a class over a map from id to row. Its handlers are methods that change that map. The read-side repair works in place on an array and returns its pending writes as a list.
- **Search index maintenance** (`cmsRoute.js`).
  - `formatter` builds the member list.
  - `pruneSearch` drops a dimension's search rows once no `profile_meta` row uses it.
  - `slugify` normalises a name. It appends `-id` when the candidate is already taken and records every slug it hands out.
  - The `populateSearch` loop finds or creates a row per member. It never overwrites a stored slug.
  - `upsertDimension` decides when to prune and re-populate.
  - The search table is a class with its rows, the per-locale content rows and the next content id.
- **Table kinds** (`models.js`). The 21 CMS tables form a datatype. Each kind has its table name, whether it is translated and which parent column scopes its ordering. Lemmas tie these to the three literal tables `cmsTables`, `contentTables` and `parentOrderingTables`.
- **The selector option editor** (`packages/cms/src/components/editors/SelectorEditor.jsx`).
  - Each option has an `isDefault` check box. The selector has a `default` string and a type, `single` or `multi`.
  - The handlers mutate the options in place and keep the check boxes *linked* to the default string. Linked means the boxes are exactly what mounting would tick from that string.
  - The first edit calls the parent's `markAsDirty`.
  - The editor is a class whose methods are the handlers.

Modules: `Wrappers` (Option, Outcome, choice from a set), `Kinds`, `Repair`, `OrderedTables`, `Texts` (comma join and split), `Slugs`, `SearchIndexing`, `SelectorEditing`.

## Model

| member | source | states |
|---|---|---|
| Kinds.KindNamed | packages/cms/src/utils/sequelize/models.js:75-80 | a route name resolves to the kind of that name, and to none only when it is not a CMS table |
| Kinds.KindFacts | packages/cms/src/utils/sequelize/models.js:75-116 | every kind's name is listed; it is translated iff its name is in `contentTables`; it has an ordering parent iff its name is a key of `parentOrderingTables`, whose value is that parent's column |
| Kinds.KindsAreCmsTables | packages/cms/src/utils/sequelize/models.js:75-80 | every kind is a listed table and every listed table is the name of a kind |
| Kinds.ContentTablesAreCmsTables | packages/cms/src/utils/sequelize/models.js:75-92 | every content table is a CMS table, and the translated kinds are exactly those named in `contentTables` |
| Kinds.ParentOrderingKeys | packages/cms/src/utils/sequelize/models.js:99-116 | the keys of `parentOrderingTables` are exactly the ordered table names |
| Kinds.ParentOrderingTablesAreCmsTables | packages/cms/src/utils/sequelize/models.js:75-116 | every key of `parentOrderingTables` is a CMS table |
| Kinds.ParentColumnsAreParentKeys | packages/cms/src/utils/sequelize/models.js:99-116 | every parent column is one of `story_id`, `profile_id`, `section_id`, `storysection_id` |
| Kinds.OrderingParentMatchesTable | packages/cms/src/utils/sequelize/models.js:99-116 | for all kinds: an ordering parent exists iff the table is a key of `parentOrderingTables`, and the table maps to that parent's column |
| Kinds.OrderingExceptions | packages/cms/src/utils/sequelize/models.js:89-116 | `section_selector` is ordered under `section_id` but not translated; exactly formatter, generator, selector, profile and story have no ordering parent |
| Repair.SortBy | packages/cms/src/api/cmsRoute.js:175 | sorting with `sorter` leaves the array a permutation of its old contents in ascending ordering (nothing said about equal keys) |
| Repair.FlatSort | packages/cms/src/api/cmsRoute.js:183-193 | a null list gives `[]` and no writes; otherwise the result is the array itself, equal to a sorted permutation of the input renumbered by position, with the writes of the repair pass |
| Repair.PlaceNodes | packages/cms/src/api/cmsRoute.js:185-191 | the loop sets each ordering to its index and issues one write, addressed by row id, per element that was out of place |
| Repair.RepairWritesExact | packages/cms/src/api/cmsRoute.js:186-189 | a write is issued for exactly the elements whose ordering differs from their index, carries the index, and there are none iff the list is already dense by position |
| Repair.SortedPermutationOfDenseIsIdentity | packages/cms/src/api/cmsRoute.js:185 | a list already dense by position is the only sorted permutation of itself, whatever the sort does with ties |
| Repair.FlatSortOfDenseIsNoOp | packages/cms/src/api/cmsRoute.js:183-193 | on a dense list `flatSort` returns it unchanged and issues no write |
| Repair.FlatSortIdempotent | packages/cms/src/api/cmsRoute.js:183-193 | the result of `flatSort` is dense, and sorting it again changes nothing and issues no write |
| Repair.FlatSortKeepsRows | packages/cms/src/api/cmsRoute.js:183-193 | `flatSort` returns the same rows (ids as a multiset) and establishes density |
| Repair.PlaceSelectors | packages/cms/src/api/cmsRoute.js:199-205 | the loop sets both the shadow ordering and the join row's ordering to the index, with one write per misplaced selector addressed to its join row |
| Repair.BubbleSortSelectors | packages/cms/src/api/cmsRoute.js:195-207 | the shadow copies take the join row's ordering, are sorted by it (a permutation) and renumbered on both copies, so each returned selector holds its index in both; the writes are the repair writes addressed by join-row id |
| Repair.BubbleSortSelectorsRepairs | packages/cms/src/api/cmsRoute.js:196-205 | afterwards both copies equal the index; every write targets the `section_selector` id of an out-of-place selector; no write iff every join row already held its index |
| OrderedTables.DensityScope | packages/cms/src/api/cmsRoute.js:156-173 | a kind's orderings are scoped by a parent column exactly when it has an entry in `parentOrderingTables` |
| OrderedTables.OrderedTable.NextOrdering | packages/cms/src/api/cmsRoute.js:521-528 | the loop finds max(ordering) + 1 over the group, or 0 when the group is empty |
| OrderedTables.NextOrderingOfDenseGroup | packages/cms/src/api/cmsRoute.js:528 | in a dense group the max + 1 rule gives the size of the group |
| OrderedTables.InsertKeepsDense | packages/cms/src/api/cmsRoute.js:521-532 | inserting by the max + 1 rule keeps every group dense |
| OrderedTables.OrderedTable.New | packages/cms/src/api/cmsRoute.js:519-532 | the id the body carries, or else the store's next id, gets a row with the request's parent and columns; an ordered kind gets max + 1 in its parent's group (the group's size when dense, and density is kept); other kinds keep the requested ordering |
| OrderedTables.OrderedTable.NewTopLevel | packages/cms/src/api/cmsRoute.js:558-561 | the scaffold route orders a new profile after every profile (max + 1 over the whole table) and keeps the table dense |
| OrderedTables.OrderedTable.Update | packages/cms/src/api/cmsRoute.js:620-622 | the body is written over the row: it takes the request's parent and columns, and the body's ordering when it carries one (its old ordering otherwise); an unknown id changes nothing; an update that keeps the parent and the ordering keeps density |
| OrderedTables.UpdateInPlaceKeepsDense | packages/cms/src/api/cmsRoute.js:622 | an update that keeps a row's parent and ordering leaves the table dense exactly when it was dense before |
| OrderedTables.StaleOrderingBreaksDensity | packages/cms/src/api/cmsRoute.js:622 | a body carrying a stale ordering (profile 20's row 3 written back at 0) turns a dense table into one that is not |
| OrderedTables.OrderedTable.SortedGroup | packages/cms/src/api/cmsRoute.js:710-712 | the listing holds every row of the group exactly once, in ascending ordering |
| OrderedTables.SwapScopeIsDensityScope | packages/cms/src/api/cmsRoute.js:644-650 | each swap route filters on the kind's own ordering parent (profile on the whole table) |
| OrderedTables.OrderedTable.Swap | packages/cms/src/api/cmsRoute.js:651-663 | a missing row fails with no write; with no successor nothing changes and the reply is `[]`; otherwise the row goes up by one, its successor down by one, nothing else changes, both are returned, and density is kept |
| OrderedTables.SwapKeepsDense | packages/cms/src/api/cmsRoute.js:656-661 | exchanging a row with its successor in the same group keeps every group dense |
| OrderedTables.OrderedTable.SwapSelectorAsWritten | packages/cms/src/api/cmsRoute.js:669-685 | as written: with a successor the two swap and the section's selectors come back in order; without one the row's ordering has already gone up by one when the handler fails |
| OrderedTables.SelectorSwapAsWrittenBreaksDensity | packages/cms/src/api/cmsRoute.js:672-675 | a section with a single selector is dense, the selector has no successor, and the swap as written leaves the section not dense |
| OrderedTables.OrderedTable.SwapSelector | packages/cms/src/api/cmsRoute.js:669-685 | corrected: the successor is checked first; without one nothing changes; the section's selectors come back in order; density is kept |
| OrderedTables.SectionSwapKeepsDense | packages/cms/src/api/cmsRoute.js:672-675 | a selector swap with an existing successor keeps every section dense |
| OrderedTables.OrderedTable.ListSection | packages/cms/src/api/cmsRoute.js:676-684 | the reply lists the section's selectors once each in ascending order, or nothing when there is no section |
| OrderedTables.DeleteKeepsDense | packages/cms/src/api/cmsRoute.js:704-707 | moving the later siblings down by one and destroying the row keeps every group dense |
| OrderedTables.OrderedTable.Delete | packages/cms/src/api/cmsRoute.js:698-716 | a missing row fails with no write; a renumbering delete lowers the later rows of the row's group, destroys the row and returns the group in order; generator and selector destroy and return the profile's rows; formatter destroys and returns every row; density is kept. For profile_meta it runs the corrected rule, scoped to the row's profile, not the unscoped renumber of line 778 (see Findings) |
| OrderedTables.DeleteRuleIsDensityScope | packages/cms/src/api/cmsRoute.js:692-835 | each renumbering delete route works in the kind's own ordering group; exactly formatter, generator and selector do not renumber; only profile_meta's route differs from that rule |
| OrderedTables.DeleteRuleKeepsDense | packages/cms/src/api/cmsRoute.js:719-835 | every renumbering delete route (profile_meta's corrected) keeps its kind's groups dense |
| OrderedTables.OrderedTable.DeleteBinding | packages/cms/src/api/cmsRoute.js:741-755 | with no binding the handler fails with no write; otherwise the section's rows above the binding's ordering go down by one, every binding of the pair goes, and the section's selectors come back in order; a unique binding keeps density |
| OrderedTables.UnboundKeepsDense | packages/cms/src/api/cmsRoute.js:743-745 | removing a unique binding and closing its gap keeps every section dense |
| OrderedTables.UnboundIsDeleted | packages/cms/src/api/cmsRoute.js:743-745 | for a unique binding the section_selector delete is the generic delete scoped by `section_id` |
| OrderedTables.TwoProfilesMetaDense | packages/cms/src/api/cmsRoute.js:778 | the counterexample table (profile 10 with one meta row, profile 20 with two) is dense by profile |
| OrderedTables.TwoProfilesMetaUnscopedDelete | packages/cms/src/api/cmsRoute.js:778 | deleting profile 10's row without a parent filter also lowers profile 20's second row to 0 |
| OrderedTables.MetaDeleteAsWrittenBreaksDensity | packages/cms/src/api/cmsRoute.js:776-779 | the profile_meta delete as written turns a dense table into one where two rows of a profile share ordering 0 |
| OrderedTables.SharedOrderingNotDense | packages/cms/src/api/cmsRoute.js:778 | two rows of one profile at ordering 0 are not dense |
| Texts.Split | packages/cms/src/components/editors/SelectorEditor.jsx:26 | `split(",")` gives at least one part and no part holds a comma |
| Texts.JoinSplit | packages/cms/src/components/editors/SelectorEditor.jsx:26 | joining the parts of a split with the same separator gives back the string |
| Texts.SplitJoin | packages/cms/src/components/editors/SelectorEditor.jsx:105 | splitting the join of a non-empty list of comma-free parts gives back the parts |
| Texts.JoinInjective | packages/cms/src/api/cmsRoute.js:593 | two non-empty lists of comma-free parts with the same join are equal |
| Texts.JoinCollisions | packages/cms/src/api/cmsRoute.js:593 | `[].join()` equals `[""].join()`, and `["a,b"].join()` equals `["a","b"].join()` |
| Slugs.CollapseHyphens | packages/cms/src/api/cmsRoute.js:356 | `replace(/-{2,}/g, "-")` leaves no two hyphens in a row, keeps the first character and never lengthens |
| Slugs.CollapseKeepsLetters | packages/cms/src/api/cmsRoute.js:356 | collapsing changes no character other than hyphens |
| Slugs.CollapseKeepsSingleHyphens | packages/cms/src/api/cmsRoute.js:356 | a string without doubled hyphens is left unchanged |
| Slugs.CollapseIdempotent | packages/cms/src/api/cmsRoute.js:356 | collapsing twice is collapsing once |
| Slugs.LowerChar | packages/cms/src/api/cmsRoute.js:356 | lower-casing leaves no capital letter and maps hyphens, and only hyphens, to hyphens |
| Slugs.Lower | packages/cms/src/api/cmsRoute.js:356 | `toLowerCase` keeps the length and the hyphen positions and leaves no capital letter |
| Slugs.LowerKeepsNoDoubleHyphen | packages/cms/src/api/cmsRoute.js:356 | lower-casing creates no doubled hyphen |
| Slugs.LowerIdempotent | packages/cms/src/api/cmsRoute.js:356 | a string with no capitals is its own lower case |
| Slugs.Candidate | packages/cms/src/api/cmsRoute.js:356 | the slug candidate has no doubled hyphen and no capital, whatever `strip` returns |
| Slugs.CandidateIsNormal | packages/cms/src/api/cmsRoute.js:356 | normalising a candidate again leaves it unchanged |
| Slugs.SlugFreshUnlessSuffixTaken | packages/cms/src/api/cmsRoute.js:357 | a free candidate is used as is; a returned slug already seen can only be a suffixed form that was itself taken |
| Slugs.SuffixedSlugsDiffer | packages/cms/src/api/cmsRoute.js:357 | two names with the same taken candidate and different ids get different slugs |
| Slugs.SuffixCollision | packages/cms/src/api/cmsRoute.js:357-358 | with "paris" and "paris-2" already taken, "Paris" with id 2 gets "paris-2" again |
| Slugs.SlugRegistry.Slugify | packages/cms/src/api/cmsRoute.js:355-360 | returns the rule's slug for the slugs seen so far and appends it to them |
| SearchIndexing.Format | packages/cms/src/api/cmsRoute.js:276-288 | one entry per member, in order, with the member's key, its caption as name (its name when the caption is empty), its measure as value (0 when the cube has none), the dimension and level, and stem -1 |
| SearchIndexing.IndexedLevels | packages/cms/src/api/cmsRoute.js:320-321 | the indexed levels are exactly the cube's levels other than "(All)" that the profile asked for |
| SearchIndexing.FullList | packages/cms/src/api/cmsRoute.js:325-350 | every entry of a locale's list belongs to the dimension, to an indexed level, with stem -1 |
| SearchIndexing.PruneRemovesExactlyUnusedDimension | packages/cms/src/api/cmsRoute.js:295-309 | a search row is removed iff it has the dimension and no profile_meta row uses that dimension; kept rows are unchanged |
| SearchIndexing.SearchIndex.Prune | packages/cms/src/api/cmsRoute.js:295-309 | the table becomes the pruned table and the content rows of removed search rows go with them (cascade, packages/cms/src/db/search_content.js) |
| SearchIndexing.SearchIndex.StoredSlugs | packages/cms/src/api/cmsRoute.js:352-353 | the list holds exactly the non-empty stored slugs |
| SearchIndexing.SearchIndex.Upsert | packages/cms/src/api/cmsRoute.js:365-398 | a new key gets a row with a fresh content id, the values and the slug, plus its name for the locale; an existing key gets the new values, keeps a non-empty slug, and its name for the locale is created or updated |
| SearchIndexing.SearchIndex.PopulateLocale | packages/cms/src/api/cmsRoute.js:352-399 | after one locale's pass every member has a row and a name in that locale; old rows keep their content id and non-empty slug; new rows belong to listed members; other rows and other locales' names are untouched |
| SearchIndexing.SearchIndex.Populate | packages/cms/src/api/cmsRoute.js:311-401 | every member of every locale's list ends with a row and a name in that locale; every new row is a member of one of the lists; every pre-existing row keeps its content id and non-empty slug, and rows of other dimensions are untouched |
| SearchIndexing.UnindexedMemberNotDone | packages/cms/src/api/cmsRoute.js:325-399 | with one member in the cube, a search table left empty does not meet the coverage `Populate` promises |
| SearchIndexing.ReindexExactlyOnChange | packages/cms/src/api/cmsRoute.js:593 | for non-empty, comma-free level names the re-index test fires iff the dimension or the list of levels changed |
| SearchIndexing.ReindexMissesCommaInLevel | packages/cms/src/api/cmsRoute.js:593 | a level "a,b" replacing levels "a" and "b" does not fire the test |
| SearchIndexing.UpsertDimension | packages/cms/src/api/cmsRoute.js:576-597 | an id with no row creates a meta row after the profile's last one, under the body's id when it carries one, and re-indexes; a known id is updated in place (ordering kept unless the body carries one) and re-indexes iff the test fires; a re-index leaves every member of every locale indexed, starting from the table pruned of the old dimension on an update and from the old table on an insert; without re-indexing the search table is unchanged; other dimensions are untouched |
| SearchIndexing.DeleteMeta | packages/cms/src/api/cmsRoute.js:776-780 | corrected profile_meta delete: the row goes with its profile's later rows renumbered (density kept), then its dimension is pruned against the remaining rows, with the pruned rows' content; the id and content-id counters are unchanged; a missing row fails with no write |
| SelectorEditing.MountLinks | packages/cms/src/components/editors/SelectorEditor.jsx:21-30 | mounting links the boxes to the default string and changes no option's name or `allowed` |
| SelectorEditing.SelectorEditor.constructor | packages/cms/src/components/editors/SelectorEditor.jsx:17-33 | the options are flagged from the default (single: equal to it; multi: among its comma parts); the custom field shows iff the default holds `{{`; not dirty |
| SelectorEditing.DefaultNames | packages/cms/src/components/editors/SelectorEditor.jsx:105 | the list holds exactly the names of ticked options |
| SelectorEditing.JoinedDefaultsLink | packages/cms/src/components/editors/SelectorEditor.jsx:102-106 | with distinct, non-empty, comma-free names the comma-join of the ticked names keeps the boxes linked (a remount ticks the same options) |
| SelectorEditing.ChosenLinks | packages/cms/src/components/editors/SelectorEditor.jsx:95-101 | ticking an option in single mode links the boxes to its name and renames nothing |
| SelectorEditing.Toggled | packages/cms/src/components/editors/SelectorEditor.jsx:103-104 | only the first option of that name takes the box's state; no such option, no change |
| SelectorEditing.ToggledLinks | packages/cms/src/components/editors/SelectorEditor.jsx:102-106 | toggling in multi mode and storing the joined defaults keeps the link |
| SelectorEditing.Removed | packages/cms/src/components/editors/SelectorEditor.jsx:118 | `splice(i, 1)` removes exactly index i and keeps the rest in order |
| SelectorEditing.DeleteKeepsLink | packages/cms/src/components/editors/SelectorEditor.jsx:116-123 | deleting an option, with the first one ticked when no box is left, keeps the link in every mode (the link is about the boxes; the default string is not rebuilt) |
| SelectorEditing.DeleteKeepsStaleDefault | packages/cms/src/components/editors/SelectorEditor.jsx:118-123 | in multi mode, deleting "a" from "a" and "b", both ticked, keeps the link but leaves the default "a,b" while the ticked names join to "b" |
| SelectorEditing.KeepFirstDefault | packages/cms/src/components/editors/SelectorEditor.jsx:137-149 | switching to single changes no option's name or `allowed` |
| SelectorEditing.KeepFirst | packages/cms/src/components/editors/SelectorEditor.jsx:137-149 | the loop clears every box after the first ticked one and remembers that option's name |
| SelectorEditing.SingleSwitchKeepsFirst | packages/cms/src/components/editors/SelectorEditor.jsx:136-150 | after the switch at most one box is ticked, and it is the first one ticked before |
| SelectorEditing.SingleSwitchLinks | packages/cms/src/components/editors/SelectorEditor.jsx:136-150 | with distinct names and a ticked box, the switch links the boxes to the first ticked name |
| SelectorEditing.FirstDefaultAt | packages/cms/src/components/editors/SelectorEditor.jsx:139-143 | the first ticked name belongs to a ticked option with no ticked option before it |
| SelectorEditing.MovedDown | packages/cms/src/components/editors/SelectorEditor.jsx:166-168 | the move is a permutation of the options |
| SelectorEditing.MoveDownTwice | packages/cms/src/components/editors/SelectorEditor.jsx:160-169 | moving the same option down twice restores the list, and a move keeps the link |
| SelectorEditing.FreshVariable | packages/cms/src/components/editors/SelectorEditor.jsx:39-45 | the first variable not starting with `_` and not already an option, or "" when there is none |
| SelectorEditing.SelectorEditor.Touch | packages/cms/src/components/editors/SelectorEditor.jsx:46-52 | `markAsDirty` is called (when given) only on the edit that turns `isDirty` on; the data is unchanged |
| SelectorEditing.SelectorEditor.AddOption | packages/cms/src/components/editors/SelectorEditor.jsx:35-53 | appends one option named by `FreshVariable`, allowed "always", unticked |
| SelectorEditing.SelectorEditor.ChooseOption | packages/cms/src/components/editors/SelectorEditor.jsx:55-65 | renames option i only |
| SelectorEditing.SelectorEditor.ChooseAllowed | packages/cms/src/components/editors/SelectorEditor.jsx:67-78 | sets option i's `allowed` only |
| SelectorEditing.SelectorEditor.ChooseCustom | packages/cms/src/components/editors/SelectorEditor.jsx:80-90 | sets the default string only |
| SelectorEditing.SelectorEditor.SetDefault | packages/cms/src/components/editors/SelectorEditor.jsx:92-114 | single and ticked: exactly the options of that name are ticked and it is the default; multi: the toggle, and the default becomes the join of the ticked names; otherwise no option or default changes; the custom field is hidden |
| SelectorEditing.SelectorEditor.DeleteOption | packages/cms/src/components/editors/SelectorEditor.jsx:116-131 | removes option i; if options remain and none is ticked, ticks the first and makes it the default |
| SelectorEditing.SelectorEditor.HandleTypeChange | packages/cms/src/components/editors/SelectorEditor.jsx:133-158 | sets the type; to single it keeps only the first ticked box and makes its name the default (default kept when none is ticked) |
| SelectorEditing.SelectorEditor.MoveDown | packages/cms/src/components/editors/SelectorEditor.jsx:160-177 | swaps options i and i+1; on the last option nothing happens, not even the dirty mark |
| SelectorEditing.SelectorEditor.EditName | packages/cms/src/components/editors/SelectorEditor.jsx:179-189 | sets the name only |
| SelectorEditing.SelectorEditor.EditLabel | packages/cms/src/components/editors/SelectorEditor.jsx:191-200 | sets the title only |
| SelectorEditing.SelectorEditor.ToggleCustom | packages/cms/src/components/editors/SelectorEditor.jsx:203-205 | flips the custom field without dirtying |

## Left out

- HTTP routing, the `isEnabled` gate and response shaping are not modelled. Replies are the rows the handlers compute. For example, the profile and story deletes return the renumbered table, where the routes send the whole profile or story tree. Section types come from a directory listing and are left out too.
- The ORM is modelled as maps. `findOrCreate`, `upsert`, `sequelize.literal("ordering + 1")` and include trees become map updates.
- The OLAP client (`getCube`, `getMembers`, `execQuery`) is a foreign network call. Its answers are the `Cube` input, and a failed query is an absent entry.
- The z-score normalisation in `formatter` uses floating-point deviation and median, so it is left out. Each entry keeps its raw measure, and a missing measure is 0.
- `strip` from d3plus-text is a function parameter with no properties assumed.
- Slugs.Lower: only ASCII capitals are lowered; the Unicode case mapping of `toLowerCase` is not modelled.
- The locales come from the environment (`CANON_LANGUAGES`). Here they are an input list.
- The search content model keys its rows by `lang`, while the route writes `locale`. The model follows the route.
- Nothing is concurrent in the model; every step runs in sequence. The source does not await the repair writes of `flatSort` and `bubbleSortSelectors`, so they are returned as a list of pending writes. The prune and populate in `upsertDimension` are not awaited either, and the model runs them in order.
- The repair pass that `bubbleSortSelectors` runs after the selector swap and delete is not applied to the table. Those handlers reply with the section's selectors in order, and the repair itself is Repair.BubbleSortSelectors.
- The profile delete calls `pruneSearch` with a profile row, which has no dimension. That call is not modelled.
- The `repopulateSearch` route only re-runs `populateSearch`, so it adds nothing to model.
- newScaffold also creates a Hero section and content rows. Only the profile's ordering is modelled.
- The update route also writes `_content` rows. Columns other than the parent, the ordering and the `Payload` are not modelled.
- OrderedTables.OrderedTable.New: a body id that already has a row is excluded by the precondition; the store would reject that insert and the route would then fail. An explicit id raises the model's next id past it, whereas the database sequence is not advanced by it, so a later insert colliding with it is not modelled.
- OrderedTables.OrderedTable.Update: density is promised only when the body keeps the row's parent and ordering. The route writes whatever the body holds, and a stale ordering breaks density (OrderedTables.StaleOrderingBreaksDensity).
- OrderedTables.OrderedTable.Delete: for profile_meta the method applies the corrected, profile-scoped renumbering. The route as written at cmsRoute.js:778 is captured by OrderedTables.MetaDeleteAsWrittenBreaksDensity.
- A handler that dereferences a missing row throws in the source (for example `original.ordering` at cmsRoute.js:656, or `row.ordering` at 704). The model returns `NotFound` with no state change, because no write happens before the throw. The as-written selector swap is the exception: there the first write does happen first.
- SelectorEditing.SelectorEditor.DeleteOption, SelectorEditing.SelectorEditor.MoveDown, SelectorEditing.SelectorEditor.ChooseOption and SelectorEditing.SelectorEditor.ChooseAllowed require an index inside the list. The UI only calls them with the index of a rendered option.
- Kinds.KindNamed: no lemma states that resolving a kind's own name gives back that kind. KindNamed only states that the kind it returns has that name, and that None means the name is not a CMS table.
- OrderedTables.OrderedTable.DeleteBinding: density is proved only when the section holds one binding of the selector. The route destroys every binding of the pair but closes only one gap.
- Slugs.SlugRegistry.Slugify: distinct slugs are proved only for names that share a taken candidate. A suffixed slug can itself collide (Slugs.SuffixCollision).
- SearchIndexing.ReindexExactlyOnChange: the iff is proved for non-empty, comma-free level names. Otherwise the join can hide a change (SearchIndexing.ReindexMissesCommaInLevel).

## Findings

| source | as written | input that shows it | evidently intended | confidence | as-written member | corrected member |
|---|---|---|---|---|---|---|
| packages/cms/src/api/cmsRoute.js:778 | the profile_meta delete lowers every row with a greater ordering in the whole table | profile 10 has meta row 1 at ordering 0; profile 20 has rows 2 and 3 at orderings 0 and 1. Deleting row 1 leaves rows 2 and 3 both at 0 | renumber only the deleted row's profile (`profile_id: row.profile_id`), as the section and materializer deletes do | not executed | OrderedTables.MetaDeleteAsWrittenBreaksDensity | OrderedTables.DeleteRuleKeepsDense |
| packages/cms/src/api/cmsRoute.js:672-675 | the selector swap raises the row's ordering before it checks that a successor exists, then fails on `other.id` | a section with a single selector at ordering 0: after the swap it sits at ordering 1 | return without writing when there is no successor, as the generic swap does at line 659 | not executed | OrderedTables.SelectorSwapAsWrittenBreaksDensity | OrderedTables.OrderedTable.SwapSelector |
