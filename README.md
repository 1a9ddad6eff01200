# Sites grid: filtering, tag universe and local-cache updates

This project models the collection logic of the `SitesGrid` component of a
dashboard that tracks USGS water-monitoring sites. The grid keeps the
user's sites, the flow series loaded for them, and the current filter and
tag selection. From these it derives:

- which sites are shown (`filterSite`, and the rendered view `sites.filter(filterSite)`);
- the tag universe offered to the tag selector (`rawTags`/`tags`);
- the local list updates applied after the repository confirms an add,
  a delete, a favorite change or a tag change;
- the filter reset that follows most of those updates.

Modules, one per concern of the component:

- `Types`: the `Site` record, `FlowSeries`, the `SiteFilter` enumeration,
  `HasTag` (`site.tags?.includes(tag)`) and `UniqueIds`, the assumption
  that the repository hands out distinct `_id`s.
  `Site` fields map as follows: `_id` → `id`, `site_id` → `siteId`,
  `is_favorite` → `isFavorite`, `tags` → `tags` (an `Option`, because a
  stored site may have no tag list).
- `Seqs`: the array primitives the component uses (`filter`, `indexOf`),
  with their properties.
- `TagOrder`: the order used to sort tags, lexicographic on character
  codes, and `SortTags`, an insertion sort over it that models the
  `.sort` call.
- `Tags`: the tag universe pipeline. It flattens the tag lists, keeps first
  occurrences, drops absent and empty tags, and sorts. `TagUniverse`
  composes these steps and models the `tags` constant.
- `Visibility`: `filterSite` as a method with the source's two loops. It is
  proved equal to the declarative rule `Shown`. The view is built on top.
- `CacheUpdates`: the four list updates as functions, with lemmas relating them.
- `Grid`: class `SitesGrid`, holding the component's state (`sites`, `flows`,
  `filters`, `selectedTags`). Its handler methods take the outcome of the
  backend call as a parameter. `None` or `false` stands for a failed call,
  and then the state is unchanged.

Points where the model makes the code's behaviour explicit:

- `sites.map(site => site.tags).flat()` keeps an absent tag list as one
  absent element (`flat` removes no values). `RawTags` therefore yields
  `Option<string>` elements. The end of the pipeline drops them.
- "Selecting more tags never hides a site" holds only once something is
  selected. With an empty selection every site with a flow is shown, and
  choosing a first tag can hide sites. `MoreTagsNeverHide` carries the
  precondition and `FirstTagCanHide` shows the case.
- The delete update removes every entry with the given id. It removes
  exactly one entry only when ids are unique (`RemoveByIdRemovesOne`).
  The component never checks this; it is an assumption that the
  repository assigns distinct `_id`s, and `OnSitesLoaded` accepts any list.
- The filter and tag selections are arrays, not sets, and the model keeps
  them as sequences. Only membership in them matters to visibility.
- Nothing prevents several flow series with the same site number. The code
  takes the first match (`flows.find`), and `FindFlow` models that.

## Model

| member | source | states |
|---|---|---|
| `Seqs.IndexOf` | src/user/sites/components/SitesGrid.tsx:176 | the result is -1 exactly when the value is absent; otherwise it is the position of its first occurrence |
| `Seqs.FilterSubsequence` | src/user/sites/components/SitesGrid.tsx:191 | a filtered array keeps the original relative order of the elements it keeps |
| `Seqs.FilterCounts` | src/user/sites/components/SitesGrid.tsx:85 | a filtered array holds exactly the elements that satisfy the predicate, each as many times as in the input |
| `Seqs.FilterAll` | src/user/sites/components/SitesGrid.tsx:85 | filtering with a predicate every element satisfies returns the input unchanged |
| `Seqs.FilterSpec` | src/user/sites/components/SitesGrid.tsx:191 | the order, membership, multiplicity and identity facts for `filter`, combined |
| `Seqs.FilterAppend` | src/user/sites/components/SitesGrid.tsx:72-85 | filtering distributes over concatenation |
| `TagOrder.LexLeTotal` | src/user/sites/components/SitesGrid.tsx:180 | any two tags are comparable in the sort order |
| `TagOrder.LexLeAntisymmetric` | src/user/sites/components/SitesGrid.tsx:180 | two tags that each sort no later than the other are equal |
| `TagOrder.LexLeTransitive` | src/user/sites/components/SitesGrid.tsx:180 | the sort order is transitive |
| `TagOrder.InsertMultiset` | src/user/sites/components/SitesGrid.tsx:180 | inserting adds exactly the inserted tag to the list's contents |
| `TagOrder.InsertElements` | src/user/sites/components/SitesGrid.tsx:180 | after insertion a tag is present iff it is the inserted one or was present before |
| `TagOrder.InsertProperties` | src/user/sites/components/SitesGrid.tsx:180 | inserting into a sorted list keeps it sorted, adds exactly one element, and adds no duplicate when the tag was new |
| `TagOrder.SortTagsProperties` | src/user/sites/components/SitesGrid.tsx:180 | sorting yields a sorted permutation of its input, with no duplicates when the input had none |
| `TagOrder.SortedUnique` | src/user/sites/components/SitesGrid.tsx:180 | two sorted duplicate-free lists with the same elements are equal, so the sorted result does not depend on the sort algorithm |
| `Tags.SiteTags` | src/user/sites/components/SitesGrid.tsx:171-173 | one site contributes one element per tag, namely each of its tags, or exactly a single absent element when it has no list |
| `Tags.RawTags` | src/user/sites/components/SitesGrid.tsx:171-173 | the flattened list holds a tag iff some site carries it, and holds an absent element iff some site has no tag list |
| `Tags.KeepFirstFrom` | src/user/sites/components/SitesGrid.tsx:174-176 | from a position on, the `indexOf === idx` filter keeps exactly the values first occurring at or after that position, each once |
| `Tags.KeepFirst` | src/user/sites/components/SitesGrid.tsx:174-176 | the duplicate filter keeps every value of the flattened list and no value twice |
| `Tags.PresentTags` | src/user/sites/components/SitesGrid.tsx:177-178 | the null/empty filter keeps exactly the non-empty present tags, and keeps them duplicate-free |
| `Tags.TagUniverseSpec` | src/user/sites/components/SitesGrid.tsx:171-180 | the tag universe is sorted, has no duplicates and no empty tag, and holds exactly the non-empty tags that some site carries |
| `Tags.TagUniverseUnique` | src/user/sites/components/SitesGrid.tsx:171-180 | any sorted, duplicate-free list of exactly those tags is the tag universe |
| `Tags.ExampleUniverse` | src/user/sites/components/SitesGrid.tsx:171-180 | the tag lists ["a","b"], ["b"], [] and an absent list give the universe ["a","b"] |
| `Visibility.FindFlow` | src/user/sites/components/SitesGrid.tsx:138 | the result is absent iff no flow series has the site's number; otherwise it is the first series that has it |
| `Visibility.FilterSite` | src/user/sites/components/SitesGrid.tsx:137-166 | no flow means never shown; with no filter and no tag selected a site is shown iff it has a flow; otherwise it is shown iff it has a flow and (favorites is selected and it is a favorite, or it carries some selected tag) |
| `Visibility.VisibleSites` | src/user/sites/components/SitesGrid.tsx:191 | the rendered list is an order-preserving subsequence of the sites; it holds exactly the sites the rule shows, each as many times as in the site list, all of which have a flow |
| `Visibility.MoreTagsNeverHide` | src/user/sites/components/SitesGrid.tsx:149-165 | once a filter or tag is selected, selecting more tags never hides a shown site |
| `Visibility.MoreTagsNeverShrinkView` | src/user/sites/components/SitesGrid.tsx:191 | under the same condition, the rendered list only gains sites when more tags are selected |
| `Visibility.FirstTagCanHide` | src/user/sites/components/SitesGrid.tsx:143-146 | from an empty selection, selecting a first tag can hide a site that was shown |
| `CacheUpdates.AddLocal` | src/user/sites/components/SitesGrid.tsx:72 | the old list followed by exactly one new last element, the created site |
| `CacheUpdates.RemoveById` | src/user/sites/components/SitesGrid.tsx:85 | exactly the entries whose id differs, each as often as before, in their original order; the list is unchanged when the id is absent |
| `CacheUpdates.SetFavorite` | src/user/sites/components/SitesGrid.tsx:101-106 | same length, order, ids, site numbers and tags; matching entries get the new flag, all other entries are unchanged |
| `CacheUpdates.UpdateTags` | src/user/sites/components/SitesGrid.tsx:121-126 | same length, order, ids, site numbers and flags; matching entries get the new tags, all other entries are unchanged |
| `CacheUpdates.RemoveByIdRemovesOne` | src/user/sites/components/SitesGrid.tsx:85 | with unique ids, deleting a present id shortens the list by exactly one |
| `CacheUpdates.AddThenRemove` | src/user/sites/components/SitesGrid.tsx:72-85 | deleting a site just added under a fresh id gives back the previous list |
| `CacheUpdates.RemoveByIdIdempotent` | src/user/sites/components/SitesGrid.tsx:85 | deleting the same id twice is the same as deleting it once |
| `CacheUpdates.RemoveByIdUnique` | src/user/sites/components/SitesGrid.tsx:85 | deleting keeps the ids unique |
| `CacheUpdates.SetFavoriteKeepsRawTags` | src/user/sites/components/SitesGrid.tsx:101-106 | a favorite update leaves the flattened tag list unchanged |
| `CacheUpdates.SetFavoriteKeepsTagUniverse` | src/user/sites/components/SitesGrid.tsx:101-106 | a favorite update leaves the tag universe unchanged |
| `CacheUpdates.UpdateTagsUniverse` | src/user/sites/components/SitesGrid.tsx:121-126 | after a tag update the universe holds exactly the non-empty new tags (if the id is present) and the non-empty tags of the other entries |
| `CacheUpdates.FavoriteShownUnderFavoritesFilter` | src/user/sites/components/SitesGrid.tsx:101-106 | with the favorites filter selected, a newly favorited entry that has a flow is rendered |
| `Grid.SitesGrid.constructor` | src/user/sites/components/SitesGrid.tsx:22-27 | initially no sites, no flows, no filters, no selected tags |
| `Grid.SitesGrid.OnSitesLoaded` | src/user/sites/components/SitesGrid.tsx:30-38 | a successful load replaces the site list; a failure changes nothing |
| `Grid.SitesGrid.RefreshFlows` | src/user/sites/components/SitesGrid.tsx:40-58 | no sites means no flows; otherwise a successful load replaces the flows and a failure keeps the stale ones |
| `Grid.SitesGrid.SetFilters` | src/user/sites/components/SitesGrid.tsx:183 | the filter selection becomes the given list and nothing else changes |
| `Grid.SitesGrid.SetSelectedTags` | src/user/sites/components/SitesGrid.tsx:184 | the tag selection becomes the given list and nothing else changes |
| `Grid.SitesGrid.ResetFilters` | src/user/sites/components/SitesGrid.tsx:60-63 | both selections become empty, sites and flows are unchanged, and the view is exactly the sites with a flow |
| `Grid.SitesGrid.OnSiteAdded` | src/user/sites/components/SitesGrid.tsx:65-78 | on success the created site is appended and the selections reset; a fresh id keeps ids unique; on failure nothing changes |
| `Grid.SitesGrid.OnDeleteSite` | src/user/sites/components/SitesGrid.tsx:80-94 | on success the entries with the id are removed and the selections reset; ids stay unique; on failure nothing changes |
| `Grid.SitesGrid.OnSetFavorite` | src/user/sites/components/SitesGrid.tsx:96-114 | on success the matching entries get the new flag; the selections and the tag universe are unchanged; ids stay unique |
| `Grid.SitesGrid.OnTagsUpdated` | src/user/sites/components/SitesGrid.tsx:116-135 | on success the matching entries get the new tags and the selections reset; ids stay unique; on failure nothing changes |

## Left out

- The `loading` flag and its backdrop are not modelled. This includes the add handler leaving it set on failure. It is presentation state.
- The `lookback` window is not modelled. It only parameterises the flow-service call, whose outcome is a parameter of `RefreshFlows`.
- The service calls (`GetSites`, `LoadFlows`, `AddSite`, `DeleteSite`, `UpdateSite`) are not modelled. They are network code. Each handler receives the call's outcome, and a failure leaves the state unchanged. `AddSite` always creates a non-favorite site; the created record is the handler's parameter.
- The `/signin` navigation on a failed initial load is not modelled. It is a routing side effect.
- React effect scheduling is not modelled, and neither are races between overlapping asynchronous handlers. These are event-loop ordering, not sequential logic.
- Logging is not modelled.
- MUI rendering is not modelled. This covers the second `flows.find` that picks the card's series and the grid keyed by `location`.
- The `isMobile` column count is not modelled. It comes from an external device signal.
- Flow readings are not modelled. Only the fields the grid compares or keys on are kept.
- In-place mutation: the favorite and tag updates of the source mutate the existing site objects in place, which the previous array shares. The model works on values, so that aliasing is not captured. The new list agrees with what the source stores.
- Tag collation: `localeCompare` is modelled as lexicographic order on character codes. Locale-specific collation is not modelled.
- The filter enumeration is defined outside this component. Its values other than the favorites filter are represented by `OtherFilter`, which matches no site.
- src/components/AddSiteDialog.tsx is not part of this model. It only forwards the typed text to its callback.
