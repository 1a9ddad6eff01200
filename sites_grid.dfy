/** The state the sites grid component keeps, and its handlers. Each handler
    receives the outcome of its repository or flow-service call as a
    parameter; a failed call leaves the state as it was. */
module Grid {
  import opened Types
  import opened Visibility
  import opened Tags
  import opened CacheUpdates

  class SitesGrid {
    var sites: seq<Site>
    var flows: seq<FlowSeries>
    var filters: seq<SiteFilter>
    var selectedTags: seq<string>

    /** The component's initial state: nothing loaded, nothing selected. */
    constructor ()
      ensures sites == [] && flows == [] && filters == [] && selectedTags == []
    {
      sites, flows, filters, selectedTags := [], [], [], [];
    }

    /** The tag universe shown to the tag selector. */
    function TagOptions(): (r: seq<string>)
      reads this
    {
      TagUniverse(sites)
    }

    /** The sites rendered as cards. */
    function Visible(): (r: seq<Site>)
      reads this
    {
      VisibleSites(sites, flows, filters, selectedTags)
    }

    /** The initial load: a successful `GetSites` replaces the list; on failure
        the user is sent to sign in and the state is untouched. */
    method OnSitesLoaded(loaded: Option<seq<Site>>)
      modifies this
      ensures sites == (if loaded.Some? then loaded.value else old(sites))
      ensures flows == old(flows) && filters == old(filters) && selectedTags == old(selectedTags)
    {
      if loaded.Some? {
        sites := loaded.value;
      }
    }

    /** The flow refresh after the site list changed: no sites means no flows
        and no call; otherwise a successful `LoadFlows` replaces the flows and a
        failed one keeps the stale ones. */
    method RefreshFlows(loaded: Option<seq<FlowSeries>>)
      modifies this
      ensures flows == (if |sites| <= 0 then [] else if loaded.Some? then loaded.value else old(flows))
      ensures sites == old(sites) && filters == old(filters) && selectedTags == old(selectedTags)
    {
      if |sites| <= 0 {
        flows := [];
        return;
      }
      if loaded.Some? {
        flows := loaded.value;
      }
    }

    /** The filter state a child component sets through the filters context. */
    method SetFilters(fs: seq<SiteFilter>)
      modifies this
      ensures filters == fs
      ensures sites == old(sites) && flows == old(flows) && selectedTags == old(selectedTags)
    {
      filters := fs;
    }

    /** The tag selection a child component sets through the tags context. */
    method SetSelectedTags(ts: seq<string>)
      modifies this
      ensures selectedTags == ts
      ensures sites == old(sites) && flows == old(flows) && filters == old(filters)
    {
      selectedTags := ts;
    }

    /** `resetFilters`: nothing is selected afterwards, so exactly the sites
        with a flow series are shown. */
    method ResetFilters()
      modifies this
      ensures filters == [] && selectedTags == []
      ensures sites == old(sites) && flows == old(flows)
      ensures forall s :: s in Visible() <==> s in sites && HasFlow(flows, s.siteId)
    {
      filters := [];
      selectedTags := [];
    }

    /** `onSiteAdded`: the site the repository created is appended and the
        filters are reset. */
    method OnSiteAdded(created: Option<Site>)
      modifies this
      ensures sites == (if created.Some? then AddLocal(old(sites), created.value) else old(sites))
      ensures created.Some? ==> filters == [] && selectedTags == []
      ensures created.None? ==> filters == old(filters) && selectedTags == old(selectedTags)
      ensures flows == old(flows)
      ensures created.Some? && UniqueIds(old(sites)) &&
              (forall i :: 0 <= i < |old(sites)| ==> old(sites)[i].id != created.value.id)
              ==> UniqueIds(sites)
    {
      if created.Some? {
        sites := AddLocal(sites, created.value);
        ResetFilters();
      }
    }

    /** `onDeleteSite`: after a confirmed delete the entries with that id are
        dropped and the filters are reset. */
    method OnDeleteSite(id: string, deleted: bool)
      modifies this
      ensures sites == (if deleted then RemoveById(old(sites), id) else old(sites))
      ensures deleted ==> filters == [] && selectedTags == []
      ensures !deleted ==> filters == old(filters) && selectedTags == old(selectedTags)
      ensures flows == old(flows)
      ensures UniqueIds(old(sites)) ==> UniqueIds(sites)
    {
      if deleted {
        if UniqueIds(sites) {
          RemoveByIdUnique(sites, id);
        }
        sites := RemoveById(sites, id);
        ResetFilters();
      }
    }

    /** `onSetFavorite`: after a confirmed update the matching entries carry
        the new flag; the filters stay as they are. */
    method OnSetFavorite(id: string, isFavorite: bool, updated: bool)
      modifies this
      ensures sites == (if updated then SetFavorite(old(sites), id, isFavorite) else old(sites))
      ensures flows == old(flows) && filters == old(filters) && selectedTags == old(selectedTags)
      ensures TagOptions() == old(TagOptions())
      ensures UniqueIds(old(sites)) ==> UniqueIds(sites)
    {
      if updated {
        SetFavoriteKeepsTagUniverse(sites, id, isFavorite);
        sites := SetFavorite(sites, id, isFavorite);
      }
    }

    /** `onTagsUpdated`: after a confirmed update the matching entries carry
        the replacement tags and the filters are reset. */
    method OnTagsUpdated(id: string, tags: seq<string>, updated: bool)
      modifies this
      ensures sites == (if updated then UpdateTags(old(sites), id, tags) else old(sites))
      ensures updated ==> filters == [] && selectedTags == []
      ensures !updated ==> filters == old(filters) && selectedTags == old(selectedTags)
      ensures flows == old(flows)
      ensures UniqueIds(old(sites)) ==> UniqueIds(sites)
    {
      if updated {
        sites := UpdateTags(sites, id, tags);
        ResetFilters();
      }
    }
  }
}
