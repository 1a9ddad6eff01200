/** The records the sites grid works on: sites as the repository returns them,
    the flow series loaded for them, and the filter values a user can select. */
module Types {

  datatype Option<+T> = None | Some(value: T)

  /** A tracked site. `id` is the repository's internal key (`_id`), `siteId` the
      USGS site number (`site_id`); `tags` may be absent on a stored record. */
  datatype Site = Site(id: string, siteId: string, isFavorite: bool, tags: Option<seq<string>>)

  /** A flow series, reduced to the fields the grid compares or keys on; the
      readings themselves are only drawn. */
  datatype FlowSeries = FlowSeries(siteId: string, location: string)

  /** The selectable filters. `Favorites` is the one the grid interprets; every
      other value of the filter enumeration is represented by `OtherFilter`. */
  datatype SiteFilter = Favorites | OtherFilter(name: string)

  /** `site.tags?.includes(tag)`: an absent tag list includes nothing. */
  predicate HasTag(site: Site, tag: string)
  {
    site.tags.Some? && tag in site.tags.value
  }

  /** No two entries share an `id`. The component neither states nor enforces
      this; it holds when the repository assigns distinct `_id`s. */
  predicate UniqueIds(sites: seq<Site>)
  {
    forall i, j :: 0 <= i < j < |sites| ==> sites[i].id != sites[j].id
  }
}
