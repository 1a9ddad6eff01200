/** Which sites the grid shows: `filterSite` and the view `sites.filter(filterSite)`. */
module Visibility {
  import opened Types
  import opened Seqs

  /** Some loaded flow series belongs to the USGS site `siteId`. */
  predicate HasFlow(flows: seq<FlowSeries>, siteId: string)
  {
    exists i :: 0 <= i < |flows| && flows[i].siteId == siteId
  }

  /** `flows.find(flow => flow.siteId === siteId)`: the first matching series. */
  function FindFlow(flows: seq<FlowSeries>, siteId: string): (r: Option<FlowSeries>)
    ensures r.None? <==> !HasFlow(flows, siteId)
    ensures r.Some? ==> r.value.siteId == siteId
    ensures r.Some? ==>
      (exists k :: 0 <= k < |flows| && flows[k] == r.value &&
         forall j :: 0 <= j < k ==> flows[j].siteId != siteId)
    decreases |flows|
  {
    if flows == [] then None
    else if flows[0].siteId == siteId then Some(flows[0])
    else
      assert forall j :: 0 < j < |flows| ==> flows[j] == flows[1..][j - 1];
      FindFlow(flows[1..], siteId)
  }

  /** The user has selected at least one filter or tag. */
  predicate Selecting(filters: seq<SiteFilter>, selectedTags: seq<string>)
  {
    |filters| > 0 || |selectedTags| > 0
  }

  /** Any of the active criteria accepts the site: the favorites filter a
      favorite site, or a selected tag that the site carries. */
  predicate MatchesSelection(filters: seq<SiteFilter>, selectedTags: seq<string>, site: Site)
  {
    (Favorites in filters && site.isFavorite) ||
    (exists t :: t in selectedTags && HasTag(site, t))
  }

  /** The visibility rule: a site is shown only with a flow series, and then
      either nothing is selected or some selected criterion matches. */
  predicate Shown(flows: seq<FlowSeries>, filters: seq<SiteFilter>, selectedTags: seq<string>, site: Site)
  {
    HasFlow(flows, site.siteId) &&
    (!Selecting(filters, selectedTags) || MatchesSelection(filters, selectedTags, site))
  }

  /** `filterSite`, with the component state it reads passed in. */
  method FilterSite(flows: seq<FlowSeries>, filters: seq<SiteFilter>, selectedTags: seq<string>, site: Site)
    returns (show: bool)
    ensures show ==> HasFlow(flows, site.siteId)
    ensures !Selecting(filters, selectedTags) ==> (show <==> HasFlow(flows, site.siteId))
    ensures Selecting(filters, selectedTags) ==>
      (show <==>
         (HasFlow(flows, site.siteId) &&
          ((Favorites in filters && site.isFavorite) ||
           (exists t :: t in selectedTags && HasTag(site, t)))))
    ensures show == Shown(flows, filters, selectedTags, site)
  {
    var flow := FindFlow(flows, site.siteId);
    if flow == None {
      return false;
    }
    if |filters| <= 0 && |selectedTags| <= 0 {
      return true;
    }
    show := false;
    for i := 0 to |filters|
      invariant show <==> Favorites in filters[..i] && site.isFavorite
    {
      if filters[i] == Favorites && site.isFavorite {
        show := true;
      }
      assert filters[..i + 1] == filters[..i] + [filters[i]];
    }
    assert filters[..|filters|] == filters;
    ghost var favorite := show;
    for i := 0 to |selectedTags|
      invariant show <==> favorite || exists t :: t in selectedTags[..i] && HasTag(site, t)
    {
      assert selectedTags[..i + 1] == selectedTags[..i] + [selectedTags[i]];
      if site.tags.Some? && selectedTags[i] in site.tags.value {
        show := true;
        assert selectedTags[i] in selectedTags[..i + 1] && HasTag(site, selectedTags[i]);
      }
    }
    assert selectedTags[..|selectedTags|] == selectedTags;
  }

  /** `sites.filter(filterSite)`: the sites rendered as cards. */
  function VisibleSites(sites: seq<Site>, flows: seq<FlowSeries>, filters: seq<SiteFilter>, selectedTags: seq<string>): (r: seq<Site>)
    ensures IsSubsequence(r, sites)
    ensures forall s :: s in r <==> s in sites && Shown(flows, filters, selectedTags, s)
    ensures forall s :: s in r ==> HasFlow(flows, s.siteId)
    ensures forall s :: multiset(r)[s] == if Shown(flows, filters, selectedTags, s) then multiset(sites)[s] else 0
  {
    FilterSpec(sites, s => Shown(flows, filters, selectedTags, s));
    Filter(sites, s => Shown(flows, filters, selectedTags, s))
  }

  /** Once something is selected, selecting more tags can only add sites. */
  lemma MoreTagsNeverHide(flows: seq<FlowSeries>, filters: seq<SiteFilter>, selectedTags: seq<string>, more: seq<string>, site: Site)
    requires Selecting(filters, selectedTags)
    requires forall t :: t in selectedTags ==> t in more
    requires Shown(flows, filters, selectedTags, site)
    ensures Shown(flows, filters, more, site)
  {
    if !(Favorites in filters && site.isFavorite) {
      var t :| t in selectedTags && HasTag(site, t);
      assert t in more;
    }
  }

  /** The same for the rendered list. */
  lemma MoreTagsNeverShrinkView(sites: seq<Site>, flows: seq<FlowSeries>, filters: seq<SiteFilter>, selectedTags: seq<string>, more: seq<string>)
    requires Selecting(filters, selectedTags)
    requires forall t :: t in selectedTags ==> t in more
    ensures forall s :: s in VisibleSites(sites, flows, filters, selectedTags) ==> s in VisibleSites(sites, flows, filters, more)
  {
    forall s | s in VisibleSites(sites, flows, filters, selectedTags)
      ensures s in VisibleSites(sites, flows, filters, more)
    {
      MoreTagsNeverHide(flows, filters, selectedTags, more, s);
    }
  }

  /** From an empty selection the first selected tag can hide a site: with
      nothing selected every site with a flow is shown. */
  lemma FirstTagCanHide()
    ensures var flows := [FlowSeries("01", "somewhere")];
            var site := Site("1", "01", false, None);
            Shown(flows, [], [], site) && !Shown(flows, [], ["a"], site)
  {
    var flows := [FlowSeries("01", "somewhere")];
    assert flows[0].siteId == "01";
  }
}
